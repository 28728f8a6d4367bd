/** What a key may reach after its allowlist was renamed: never more than before, except in one
    family of body rules that this file pins down exactly. */
module KeyScopesLaws {
  import opened Names
  import opened ModelTable
  import opened Seqs
  import opened ModelSave
  import opened KeyScopes

  // ---- reachability --------------------------------------------------------------------------

  ghost predicate ReachesThrough(c: Channel, s: Scope, rows: Table, actual: string) {
    exists row :: row in rows && AllowsModel(s, row.model) && actual in FinalUpstreams(c, row) &&
        AllowsUpstream(s, actual)
  }

  /** The collected target list is the set of upstreams the key reaches. */
  lemma {:induction false} TargetsAreReachable(c: Channel, s: Scope, rows: Table)
    ensures forall a :: a in Targets(c, s, rows) <==> ReachesThrough(c, s, rows, a)
  {
    hide AllowsModel, AllowsUpstream, FinalUpstreams, Filter;
    if rows != [] {
      var front, last := rows[..|rows| - 1], rows[|rows| - 1];
      assert rows == front + [last];
      TargetsAreReachable(c, s, front);
      FilterMembers((a: string) => AllowsUpstream(s, a), FinalUpstreams(c, last));
      forall a ensures a in Targets(c, s, rows) <==> ReachesThrough(c, s, rows, a) {
        if a in RowTargets(c, s, last) { assert last in rows; }
      }
    }
  }

  /** The targets of a scope, as a list. */
  function OldTargets(c: Channel, s: Scope): seq<string> {
    Targets(c, s, c.table)
  }

  lemma OldTargetsAreReachable(c: Channel, s: Scope)
    ensures forall a :: a in OldTargets(c, s) <==> Reaches(c, s, a)
  {
    hide Targets, AllowsModel, AllowsUpstream, FinalUpstreams;
    TargetsAreReachable(c, s, c.table);
    forall a ensures ReachesThrough(c, s, c.table, a) <==> Reaches(c, s, a) {}
  }

  // ---- the scope a key ends with -------------------------------------------------------------

  function ScopeAfter(previous: Channel, current: Channel, o: Options, s: Scope): Scope {
    var r := RemapScope(previous, current, o, s);
    if r.Some? then r.value else s
  }

  /** The renamed allowlist of a restricted key. */
  function Renamed(previous: Channel, current: Channel, o: Options, s: Scope): Scope {
    s.(allowed := NewAllowed(Renames(previous.table, current.table, o), ConfiguredNames(current.table), s.allowed))
  }

  /** An upstream name that a detected-model list can hold and match. */
  predicate Usable(name: string) {
    Trimmed(name) && Routing(name) == name && name !in {"", "*"} && !HasControl(name)
  }

  /** No old target leaves a name in the rebuilt detected list. */
  predicate Nameless(targets: seq<string>) {
    forall i :: 0 <= i < |targets| ==> DetectedName(targets[i]).None?
  }

  /** The name recorded for an old target matches `actual`. */
  predicate Matches(target: string, actual: string) {
    DetectedName(target).Some? && EqualFold(Routing(DetectedName(target).value), Routing(Routing(actual)))
  }

  /** A detected list rebuilt from `targets` lets `actual` pass: it is empty, the name is one every key may
      use, or the recorded name of some target matches. */
  predicate Admits(targets: seq<string>, actual: string) {
    || Nameless(targets)
    || Routing(actual) in {"", "*"}
    || exists i :: 0 <= i < |targets| && Matches(targets[i], actual)
  }

  predicate LeakingRow(current: Channel, candidate: Scope, targets: seq<string>, row: ModelEntry) {
    && AllowsModel(candidate, row.model)
    && exists a :: a in FinalUpstreams(current, row) && !InFold(targets, a) && Admits(targets, a)
  }

  /** The key had targets, keeps allowed models, and met a new target, so its detected list is rebuilt. */
  predicate Rebuilt(previous: Channel, current: Channel, o: Options, s: Scope) {
    var targets, candidate := OldTargets(previous, s), Renamed(previous, current, o, s);
    targets != [] && candidate.allowed != [] && Offending(current, candidate, s, targets)
  }

  /** The detected list is rebuilt, and lets a target pass that is none of the old ones. */
  predicate Leaks(previous: Channel, current: Channel, o: Options, s: Scope) {
    && Rebuilt(previous, current, o, s)
    && exists row :: row in current.table &&
                     LeakingRow(current, Renamed(previous, current, o, s), OldTargets(previous, s), row)
  }

  /** Some upstream is reachable now and, ignoring case, was not before. */
  ghost predicate Widened(previous: Channel, current: Channel, before: Scope, after: Scope) {
    exists a :: Reaches(current, after, a) && forall was :: Reaches(previous, before, was) ==> !EqualFold(was, a)
  }

  // ---- helpers -------------------------------------------------------------------------------

  lemma {:induction false} NormalizeDetectedMembers(values: seq<string>)
    ensures forall d :: d in NormalizeDetected(values) ==>
        exists i :: 0 <= i < |values| && DetectedName(values[i]) == Some(d)
    ensures forall i :: 0 <= i < |values| && DetectedName(values[i]).Some? ==>
                        InFold(NormalizeDetected(values), DetectedName(values[i]).value)
  {
    hide DetectedName, Lower;
    if values != [] {
      var front, last := values[..|values| - 1], values[|values| - 1];
      NormalizeDetectedMembers(front);
      var names, name := NormalizeDetected(front), DetectedName(last);
      if name.Some? { InFoldStep(names, name.value); }
      forall i | 0 <= i < |values| && DetectedName(values[i]).Some?
        ensures InFold(NormalizeDetected(values), DetectedName(values[i]).value)
      {
        if i < |front| { assert values[i] == front[i]; }
      }
      forall d | d in NormalizeDetected(values)
        ensures exists i :: 0 <= i < |values| && DetectedName(values[i]) == Some(d)
      {
        if d in names {
          var i :| 0 <= i < |front| && DetectedName(front[i]) == Some(d);
          assert values[i] == front[i];
        } else {
          assert DetectedName(values[|values| - 1]) == Some(d);
        }
      }
    }
  }

  lemma NamelessMeansNothingDetected(targets: seq<string>)
    ensures Nameless(targets) <==> NormalizeDetected(targets) == []
  {
    hide DetectedName, NormalizeDetected, Lower;
    NormalizeDetectedMembers(targets);
    if NormalizeDetected(targets) != [] {
      assert NormalizeDetected(targets)[0] in NormalizeDetected(targets);
    }
    if !Nameless(targets) {
      var i :| 0 <= i < |targets| && DetectedName(targets[i]).Some?;
      assert InFold(NormalizeDetected(targets), DetectedName(targets[i]).value);
    }
  }

  /** A key bounded by the rebuilt list passes exactly the upstreams the targets admit. */
  lemma RebuiltBoundary(targets: seq<string>, s: Scope, actual: string)
    requires s.detected == NormalizeDetected(targets)
    ensures AllowsUpstream(s, actual) <==> Admits(targets, actual)
  {
    hide Lower, Routing, NormalizeDetected, DetectedName;
    NormalizeDetectedMembers(targets);
    NamelessMeansNothingDetected(targets);
    if AllowsUpstream(s, actual) && s.detected != [] && Routing(actual) !in {"", "*"} {
      var d :| d in s.detected && EqualFold(Routing(d), Routing(Routing(actual)));
      var i :| 0 <= i < |targets| && DetectedName(targets[i]) == Some(d);
      assert Matches(targets[i], actual);
    }
    if exists i :: 0 <= i < |targets| && Matches(targets[i], actual) {
      var i :| 0 <= i < |targets| && Matches(targets[i], actual);
      var name := DetectedName(targets[i]).value;
      var k :| 0 <= k < |s.detected| && EqualFold(s.detected[k], name);
      RoutingFolds(s.detected[k], name);
      assert s.detected[k] in s.detected;
    }
  }

  /** Without a rename that takes effect, a name the old list allows is allowed by the new one. */
  lemma UnchangedStaysAllowed(previous: Channel, current: Channel, o: Options, s: Scope, row: ModelEntry)
    requires forall a :: a in s.allowed ==> Trimmed(a)
    requires Subject(s) && row in current.table && AllowsModel(s, row.model)
    requires !AnyRenamed(Renames(previous.table, current.table, o), s.allowed)
    ensures AllowsModel(Renamed(previous, current, o, s), row.model)
  {
    hide Lower, Routing, TrimSpace, Renames, FilterMap;
    var renamed, configured := Renames(previous.table, current.table, o), ConfiguredNames(current.table);
    var base := Routing(row.model);
    if base !in {"", "*"} {
      var a :| a in s.allowed && EqualFold(Routing(a), base);
      assert Trimmed(Routing(a));
      assert Lower(base) in configured;
      var i :| 0 <= i < |s.allowed| && s.allowed[i] == a;
      assert Replacement(renamed, s.allowed[i]) in {"", a};
      assert RenameAllowed(renamed, configured, a) == Some(a);
      FilterMapMembers((name: string) => RenameAllowed(renamed, configured, name), s.allowed);
      assert a in NewAllowed(renamed, configured, s.allowed);
    }
  }

  lemma AllowsDependsOn(s: Scope, t: Scope, name: string)
    requires s.allowed == t.allowed && s.empty == t.empty
    ensures AllowsModel(s, name) == AllowsModel(t, name)
  {
  }

  lemma UpstreamDependsOn(s: Scope, t: Scope, name: string)
    requires s.detected == t.detected
    ensures AllowsUpstream(s, name) == AllowsUpstream(t, name)
  {
  }

  lemma InFoldMeansReached(c: Channel, s: Scope, a: string)
    ensures InFold(OldTargets(c, s), a) <==> exists was :: Reaches(c, s, was) && EqualFold(was, a)
  {
    hide EqualFold, Reaches, OldTargets;
    OldTargetsAreReachable(c, s);
    if exists was :: Reaches(c, s, was) && EqualFold(was, a) {
      var was :| Reaches(c, s, was) && EqualFold(was, a);
      assert was in OldTargets(c, s);
    }
    if InFold(OldTargets(c, s), a) {
      var i :| 0 <= i < |OldTargets(c, s)| && EqualFold(OldTargets(c, s)[i], a);
      assert OldTargets(c, s)[i] in OldTargets(c, s);
    }
  }

  // ---- no widening ---------------------------------------------------------------------------

  /** Whatever the key reaches now was reachable before, or is one of the leaking rows. */
  lemma ReachedIsKnown(previous: Channel, current: Channel, o: Options, s: Scope, row: ModelEntry, a: string)
    requires Subject(s) && (forall n :: n in s.allowed ==> Trimmed(n))
    requires Renames(previous.table, current.table, o) != map[]
    requires row in current.table && a in FinalUpstreams(current, row)
    requires AllowsModel(ScopeAfter(previous, current, o, s), row.model)
    requires AllowsUpstream(ScopeAfter(previous, current, o, s), a)
    ensures InFold(OldTargets(previous, s), a) || Leaks(previous, current, o, s)
  {
    hide Renames, Targets, InFold, Admits, FinalUpstreams, AllowsUpstream, AllowsModel, NewAllowed, AnyRenamed,
         ConfiguredNames, NormalizeDetected;
    var candidate, targets := Renamed(previous, current, o, s), OldTargets(previous, s);
    var after := ScopeAfter(previous, current, o, s);
    if after == s && !AnyRenamed(Renames(previous.table, current.table, o), s.allowed) {
      UnchangedStaysAllowed(previous, current, o, s, row);
      assert !Offending(current, candidate, s, targets) || after.detected == NormalizeDetected(targets);
    } else {
      EmptyAllowsNothing(after, row.model);
      AllowsDependsOn(after, candidate, row.model);
    }
    if Offending(current, candidate, s, targets) {
      EmptyAllowsNothing(after, row.model);
      AllowsDependsOn(after, candidate, row.model);
      RebuiltBoundary(targets, after, a);
    } else {
      UpstreamDependsOn(after, s, a);
      assert !Offends(current, candidate, s, targets, row);
    }
  }

  lemma EmptyAllowsNothing(s: Scope, name: string)
    ensures s.empty ==> !AllowsModel(s, name)
  {
  }

  /** The exact condition: a key is widened, ignoring case, precisely when its scope leaks. */
  lemma WidenedExactly(previous: Channel, current: Channel, o: Options, s: Scope)
    requires Subject(s) && (forall n :: n in s.allowed ==> Trimmed(n))
    requires Renames(previous.table, current.table, o) != map[]
    ensures Widened(previous, current, s, ScopeAfter(previous, current, o, s)) <==> Leaks(previous, current, o, s)
  {
    hide Renames, Targets, InFold, FinalUpstreams, AllowsUpstream, AllowsModel, NewAllowed, AnyRenamed,
         ConfiguredNames, NormalizeDetected, Admits, Offending, EqualFold, RemapScope, OldTargets;
    var after := ScopeAfter(previous, current, o, s);
    if Widened(previous, current, s, after) {
      hide Leaks;
      var a :| Reaches(current, after, a) && forall was :: Reaches(previous, s, was) ==> !EqualFold(was, a);
      var row :| row in current.table && AllowsModel(after, row.model) && a in FinalUpstreams(current, row) &&
                 AllowsUpstream(after, a);
      ReachedIsKnown(previous, current, o, s, row, a);
      InFoldMeansReached(previous, s, a);
    }
    if Leaks(previous, current, o, s) {
      var targets, candidate := OldTargets(previous, s), Renamed(previous, current, o, s);
      var row :| row in current.table && LeakingRow(current, candidate, targets, row);
      var a :| a in FinalUpstreams(current, row) && !InFold(targets, a) && Admits(targets, a);
      InFoldMeansReached(previous, s, a);
      LeakReaches(previous, current, o, s, row, a);
      assert Reaches(current, after, a);
    }
  }

  lemma LeakReaches(previous: Channel, current: Channel, o: Options, s: Scope, row: ModelEntry, a: string)
    requires Subject(s) && Renames(previous.table, current.table, o) != map[]
    requires Rebuilt(previous, current, o, s)
    requires AllowsModel(Renamed(previous, current, o, s), row.model)
    requires Admits(OldTargets(previous, s), a)
    ensures AllowsModel(ScopeAfter(previous, current, o, s), row.model)
    ensures AllowsUpstream(ScopeAfter(previous, current, o, s), a)
  {
    hide Renames, Targets, NewAllowed, AnyRenamed, ConfiguredNames, NormalizeDetected, Admits, Offending, AllowsModel,
         AllowsUpstream;
    RebuiltBoundary(OldTargets(previous, s), ScopeAfter(previous, current, o, s), a);
    AllowsDependsOn(ScopeAfter(previous, current, o, s), Renamed(previous, current, o, s), row.model);
  }

  // ---- channels whose model names are plain --------------------------------------------------

  /** Rows resolve to names a detected list can hold; a body rule may put another such name, the blank name
      or "*" in their place. */
  predicate PlainModels(c: Channel) {
    forall row :: row in c.table ==> PlainRow(c, row)
  }

  predicate PlainRow(c: Channel, row: ModelEntry) {
    && Usable(FinalUpstreams(c, row)[1])
    && (FinalUpstreams(c, row)[0] in {"", "*"} || Usable(FinalUpstreams(c, row)[0]))
  }

  /** Body rules put one name in the place of every model, or leave every model alone. */
  lemma {:induction false} RulesAreUniform(x: string, y: string, rules: seq<BodyRule>)
    ensures AfterBodyRules(x, rules) == AfterBodyRules(y, rules) ||
            (AfterBodyRules(x, rules) == TrimSpace(x) && AfterBodyRules(y, rules) == TrimSpace(y))
    decreases |rules|
  {
    hide TrimSpace;
    if rules != [] { RulesAreUniform(x, y, rules[..|rules| - 1]); }
  }

  lemma UniversalNames()
    ensures Routing("") == "" && Routing("*") == "*" && DetectedName("").None?
    ensures forall a :: Lower(a) == "*" <==> a == "*"
  {
    PlainRouting("");
    PlainRouting("*");
    forall a ensures Lower(a) == "*" <==> a == "*" {
      if |a| == 1 { assert a == [a[0]] && Lower(a) == [LowerChar(a[0])]; }
    }
  }

  lemma PlainRouting(name: string)
    requires '(' !in name
    ensures Routing(name) == name
  {
  }

  /** A blank or "*" upstream comes from a body rule, which gives it to every row. */
  lemma UniversalIsOld(previous: Channel, current: Channel, s: Scope, row: ModelEntry, a: string)
    requires PlainModels(previous) && PlainModels(current) && previous.rules == current.rules
    requires OldTargets(previous, s) != [] && row in current.table && a in FinalUpstreams(current, row) &&
        a in {"", "*"}
    ensures InFold(OldTargets(previous, s), a)
  {
    hide Targets, AllowsModel, HasControl, Routing, TrimSpace, Lower, ResolveActual, OldTargets;
    var targets := OldTargets(previous, s);
    OldTargetsAreReachable(previous, s);
    assert targets[0] in targets;
    var r :| r in previous.table && AllowsModel(s, r.model) && targets[0] in FinalUpstreams(previous, r) &&
             AllowsUpstream(s, targets[0]);
    var x, y := FinalUpstreams(current, row)[1], FinalUpstreams(previous, r)[1];
    assert PlainRow(current, row) && PlainRow(previous, r);
    assert FinalUpstreams(current, row)[0] == a;
    RulesAreUniform(x, y, current.rules);
    UniversalNames();
    assert TrimSpace(x) == x && FinalUpstreams(previous, r)[0] == a;
    assert AllowsUpstream(s, a) && Reaches(previous, s, a);
    var i :| 0 <= i < |targets| && targets[i] == a;
    assert EqualFold(targets[i], a);
  }

  lemma MatchingIsOld(previous: Channel, s: Scope, target: string, a: string)
    requires PlainModels(previous) && target in OldTargets(previous, s) && Usable(a) && Matches(target, a)
    ensures InFold(OldTargets(previous, s), a)
  {
    hide Targets, AllowsModel, AllowsUpstream, FinalUpstreams, HasControl, Routing, TrimSpace, Lower, OldTargets;
    OldTargetsAreReachable(previous, s);
    var r :| r in previous.table && AllowsModel(s, r.model) && target in FinalUpstreams(previous, r) &&
        AllowsUpstream(s, target);
    assert PlainRow(previous, r);
    UniversalNames();
    assert TrimSpace("*") == "*" by { assert Trimmed("*"); }
    if Usable(target) { assert TrimSpace(target) == target; }
    assert EqualFold(target, a);
    var i :| 0 <= i < |OldTargets(previous, s)| && OldTargets(previous, s)[i] == target;
    assert EqualFold(OldTargets(previous, s)[i], a);
  }

  /** With plain model names a key is widened precisely when its detected list is rebuilt and none of its old
      targets has a name to record: the list is empty then, and bounds nothing. */
  lemma WidenedByRemovalExactly(previous: Channel, current: Channel, o: Options, s: Scope)
    requires Subject(s) && (forall n :: n in s.allowed ==> Trimmed(n))
    requires Renames(previous.table, current.table, o) != map[]
    requires PlainModels(previous) && PlainModels(current) && previous.rules == current.rules
    ensures Widened(previous, current, s, ScopeAfter(previous, current, o, s)) <==>
            Rebuilt(previous, current, o, s) && Nameless(OldTargets(previous, s))
  {
    hide Renames, Targets, FinalUpstreams, AllowsUpstream, AllowsModel, NewAllowed, AnyRenamed, ConfiguredNames,
         RemapScope, OldTargets, Nameless, Matches, InFold, Widened, HasControl, Routing, Lower, TrimSpace;
    WidenedExactly(previous, current, o, s);
    var targets, candidate := OldTargets(previous, s), Renamed(previous, current, o, s);
    if Rebuilt(previous, current, o, s) && Nameless(targets) {
      var row :| row in current.table && Offends(current, candidate, s, targets, row);
      assert LeakingRow(current, candidate, targets, row);
    }
    if Leaks(previous, current, o, s) && !Nameless(targets) {
      var row :| row in current.table && LeakingRow(current, candidate, targets, row);
      var a :| a in FinalUpstreams(current, row) && !InFold(targets, a) && Admits(targets, a);
      NamedTargetsBound(previous, current, s, row, a);
      assert false;
    }
  }

  /** Named targets admit, among plain upstreams, only old ones. */
  lemma NamedTargetsBound(previous: Channel, current: Channel, s: Scope, row: ModelEntry, a: string)
    requires PlainModels(previous) && PlainModels(current) && previous.rules == current.rules
    requires row in current.table && a in FinalUpstreams(current, row) && OldTargets(previous, s) != []
    requires !Nameless(OldTargets(previous, s)) && Admits(OldTargets(previous, s), a)
    ensures InFold(OldTargets(previous, s), a)
  {
    hide FinalUpstreams, OldTargets, Nameless, Matches, InFold, HasControl, Routing, Lower, TrimSpace;
    assert PlainRow(current, row);
    if a in {"", "*"} {
      UniversalIsOld(previous, current, s, row, a);
    } else {
      assert Usable(a);
      var i :| 0 <= i < |OldTargets(previous, s)| && Matches(OldTargets(previous, s)[i], a);
      MatchingIsOld(previous, s, OldTargets(previous, s)[i], a);
    }
  }

  /** With plain model names, whatever a restricted key reaches after a rename it reached before, ignoring
      case, unless its list was rebuilt from targets without a name. */
  lemma NoWidening(previous: Channel, current: Channel, o: Options, s: Scope, actual: string)
    requires Subject(s) && (forall n :: n in s.allowed ==> Trimmed(n))
    requires Renames(previous.table, current.table, o) != map[]
    requires PlainModels(previous) && PlainModels(current) && previous.rules == current.rules
    requires !(Rebuilt(previous, current, o, s) && Nameless(OldTargets(previous, s)))
    requires Reaches(current, ScopeAfter(previous, current, o, s), actual)
    ensures exists was :: Reaches(previous, s, was) && EqualFold(was, actual)
  {
    hide Renames, PlainModels, Rebuilt, Nameless, Reaches, ScopeAfter, EqualFold, OldTargets;
    WidenedByRemovalExactly(previous, current, o, s);
  }

  /** A scope left with nothing is marked empty and disabled, and no scope becomes unrestricted. */
  lemma RemappedScopeMarks(previous: Channel, current: Channel, o: Options, s: Scope)
    requires RemapScope(previous, current, o, s).Some?
    ensures var after := ScopeAfter(previous, current, o, s);
      && Restricted(after)
      && (after.empty <==> after.allowed == [])
      && (after.empty ==> after.disabled)
      && (s.disabled ==> after.disabled)
      && ((forall was :: !Reaches(previous, s, was)) ==> after.empty)
  {
    hide Renames, Targets, NewAllowed, AnyRenamed, ConfiguredNames, NormalizeDetected, Offending, Reaches;
    OldTargetsAreReachable(previous, s);
    var targets := OldTargets(previous, s);
    if targets != [] { assert targets[0] in targets; }
  }

  // ---- all keys ------------------------------------------------------------------------------

  predicate DistinctIndexes(keys: seq<ApiKey>) {
    forall i, j :: 0 <= i < j < |keys| ==> keys[i].index != keys[j].index
  }

  function ScopeOf(updates: map<int, Scope>, key: ApiKey): Scope {
    if key.index in updates then updates[key.index] else key.scope
  }

  /** The update map gives every key its own remapped scope and touches no other. */
  lemma {:induction false} UpdatesPerKey(previous: Channel, current: Channel, o: Options, keys: seq<ApiKey>)
    requires DistinctIndexes(keys)
    ensures forall n :: n in ScopeUpdates(previous, current, o, keys) ==>
        exists i :: 0 <= i < |keys| && keys[i].index == n
    ensures forall i :: 0 <= i < |keys| ==>
      ScopeOf(ScopeUpdates(previous, current, o, keys), keys[i]) == ScopeAfter(previous, current, o, keys[i].scope)
  {
    hide RemapScope;
    if keys != [] {
      var front, last := keys[..|keys| - 1], keys[|keys| - 1];
      UpdatesPerKey(previous, current, o, front);
      var m := ScopeUpdates(previous, current, o, front);
      assert last.index !in m by {
        forall i | 0 <= i < |front| ensures front[i].index != last.index {
          assert front[i] == keys[i];
        }
      }
      forall n | n in ScopeUpdates(previous, current, o, keys)
        ensures exists i :: 0 <= i < |keys| && keys[i].index == n {
        if n in m {
          var i :| 0 <= i < |front| && front[i].index == n;
          assert keys[i].index == n;
        } else {
          assert keys[|keys| - 1].index == n;
        }
      }
      forall i | 0 <= i < |keys|
        ensures ScopeOf(ScopeUpdates(previous, current, o, keys), keys[i]) ==
                ScopeAfter(previous, current, o, keys[i].scope)
      {
        if i < |front| { assert keys[i] == front[i]; }
      }
    }
  }
}
