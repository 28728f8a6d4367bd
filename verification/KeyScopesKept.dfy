/** Which names a refresh renames, told over the rows, and what a key is sure to keep when its allowlist follows. */
module KeyScopesKept {
  import opened Names
  import opened ModelTable
  import opened Seqs
  import opened ModelSave
  import opened KeyScopes
  import opened KeyScopesLaws

  // ---- rows that move ------------------------------------------------------------------------

  predicate SameUpstream(c: ModelEntry, e: ModelEntry) {
    Routing(c.Target()) == Routing(e.Target())
  }

  /** The row is still there, under its name and with its upstream. */
  ghost predicate Stays(current: Table, e: ModelEntry) {
    exists c :: c in current && c.model == e.model && SameUpstream(c, e)
  }

  /** Row `k` carries on the upstream of `e` in the group of `e`'s alias. */
  predicate Continues(current: Table, o: Options, e: ModelEntry, k: nat) {
    k < |current| && Lower(current[k].model) == Lower(Alias(e.model, o)) && SameUpstream(current[k], e)
  }

  /** The row is gone, its alias is another name, and the first row that carries it on routes as `target`. */
  ghost predicate Moves(current: Table, o: Options, e: ModelEntry, target: string) {
    && Alias(e.model, o) != e.model && !Stays(current, e)
    && exists k :: 0 <= k < |current| && Continues(current, o, e, k) && Routing(current[k].model) == target &&
                   forall j :: 0 <= j < k ==> !Continues(current, o, e, j)
  }

  lemma StillThereExactly(current: Table, e: ModelEntry)
    ensures StillThere(current, e) <==> Stays(current, e)
  {
    hide Lower, Routing, GroupRows;
    GroupRowsMembers(current, e.Group());
  }

  lemma {:induction false} SuccessorStep(rows: Table, x: ModelEntry, e: ModelEntry)
    ensures Successor(rows + [x], e) ==
      if Successor(rows, e).Some? then Successor(rows, e) else if SameUpstream(x, e) then Some(x) else None
  {
    hide Routing;
    if rows == [] {
      assert rows + [x] == [x] && [x][1..] == [];
    } else {
      assert (rows + [x])[1..] == rows[1..] + [x];
      SuccessorStep(rows[1..], x, e);
    }
  }

  /** The first row of a group that has the upstream of `e`, by its place in the table. */
  ghost predicate FirstIn(current: Table, group: string, e: ModelEntry, r: Option<ModelEntry>) {
    match r
    case None => forall j :: 0 <= j < |current| && Lower(current[j].model) == group ==> !SameUpstream(current[j], e)
    case Some(c) =>
      exists k :: 0 <= k < |current| && current[k] == c && Lower(c.model) == group && SameUpstream(c, e) &&
                  forall j :: 0 <= j < k && Lower(current[j].model) == group ==> !SameUpstream(current[j], e)
  }

  lemma {:induction false} SuccessorIsFirst(current: Table, group: string, e: ModelEntry)
    ensures FirstIn(current, group, e, Successor(GroupRows(current, group), e))
  {
    hide Lower, SameUpstream, Successor;
    if current == [] {
      assert Successor(GroupRows(current, group), e) == None by { NoSuccessor(e); }
    } else {
      var front, last := current[..|current| - 1], current[|current| - 1];
      assert current == front + [last];
      SuccessorIsFirst(front, group, e);
      GroupStep(front, last, group);
      SuccessorStep(GroupRows(front, group), last, e);
      FirstInStep(front, last, group, e, Successor(GroupRows(front, group), e));
    }
  }

  lemma NoSuccessor(e: ModelEntry)
    ensures Successor([], e) == None
  {
  }

  lemma FirstInStep(front: Table, last: ModelEntry, group: string, e: ModelEntry, r: Option<ModelEntry>)
    requires FirstIn(front, group, e, r)
    ensures FirstIn(front + [last], group, e,
                    if r.Some? then r else if Lower(last.model) == group && SameUpstream(last, e) then Some(last)
                        else None)
  {
    hide Lower, SameUpstream;
    var all := front + [last];
    assert forall j :: 0 <= j < |front| ==> all[j] == front[j];
    if r.Some? {
      var k :| 0 <= k < |front| && front[k] == r.value && Lower(r.value.model) == group && SameUpstream(r.value, e) &&
               forall j :: 0 <= j < k && Lower(front[j].model) == group ==> !SameUpstream(front[j], e);
      assert all[k] == r.value;
    } else {
      assert all[|front|] == last;
    }
  }

  lemma RenamedToExactly(current: Table, o: Options, e: ModelEntry)
    ensures RenamedTo(current, o, e).Some? ==> Moves(current, o, e, RenamedTo(current, o, e).value)
    ensures forall t :: Moves(current, o, e, t) ==> RenamedTo(current, o, e) == Some(t)
  {
    hide Lower, Routing, Alias, StillThere, Stays, Successor, GroupRows, SameUpstream;
    StillThereExactly(current, e);
    var alias := Alias(e.model, o);
    SuccessorIsFirst(current, Lower(alias), e);
  }

  // ---- renamed names -------------------------------------------------------------------------

  /** Row `k`, which routes under `name`, moves to `target`. */
  ghost predicate Mover(previous: Table, current: Table, o: Options, name: string, k: nat, target: string) {
    k < |previous| && Lower(Routing(previous[k].model)) == name && Moves(current, o, previous[k], target)
  }

  ghost predicate AnyMover(previous: Table, current: Table, o: Options, name: string) {
    exists k, t :: 0 <= k < |previous| && Mover(previous, current, o, name, k, t)
  }

  ghost predicate FirstMover(previous: Table, current: Table, o: Options, name: string, k: nat, target: string) {
    && Mover(previous, current, o, name, k, target)
    && forall j, u :: 0 <= j < k ==> !Mover(previous, current, o, name, j, u)
  }

  /** Some row under the name moves elsewhere than to `target`. */
  ghost predicate Disagrees(previous: Table, current: Table, o: Options, name: string, target: string) {
    exists j, u :: 0 <= j < |previous| && Mover(previous, current, o, name, j, u) && !EqualFold(u, target)
  }

  /** The name is renamed to `value`: where its first moving row goes, or nowhere if another disagrees. */
  ghost predicate RenamedAs(previous: Table, current: Table, o: Options, name: string, value: string) {
    exists k, t :: 0 <= k < |previous| && FirstMover(previous, current, o, name, k, t) &&
                   value == if Disagrees(previous, current, o, name, t) then "" else t
  }

  /** A routing name is renamed if and only if a row under it moves, and then to where the rows under it go. */
  lemma {:induction false} RenamesExactly(previous: Table, current: Table, o: Options, name: string)
    ensures var m := Renames(previous, current, o);
      && (name in m <==> AnyMover(previous, current, o, name))
      && (name in m ==> RenamedAs(previous, current, o, name, m[name]))
  {
    hide Lower, Routing, Moves, RenamedTo, EqualFold, AnyMover, RenamedAs;
    if previous == [] {
      assert !AnyMover(previous, current, o, name) by { NobodyMoves(current, o, name); }
    } else {
      var front, e := previous[..|previous| - 1], previous[|previous| - 1];
      assert previous == front + [e];
      RenamesExactly(front, current, o, name);
      RenamedToExactly(current, o, e);
      if RenamedTo(current, o, e).Some? && OldName(e) == name {
        MoverAdded(front, e, current, o, name, RenamedTo(current, o, e).value);
      } else {
        SameMovers(front, e, current, o, name);
      }
    }
  }

  lemma NobodyMoves(current: Table, o: Options, name: string)
    ensures !AnyMover([], current, o, name)
  {
  }

  lemma MoversBefore(front: Table, e: ModelEntry, current: Table, o: Options, name: string)
    ensures forall k: nat, t | k < |front| ::
      Mover(front + [e], current, o, name, k, t) <==> Mover(front, current, o, name, k, t)
    ensures forall k: nat, t :: Mover(front, current, o, name, k, t) ==> k < |front|
    ensures forall k: nat, t :: Mover(front + [e], current, o, name, k, t) ==> k <= |front|
    ensures forall t :: Mover(front + [e], current, o, name, |front|, t) <==>
      Lower(Routing(e.model)) == name && Moves(current, o, e, t)
  {
    hide Lower, Routing, Moves;
    assert forall j :: 0 <= j < |front| ==> (front + [e])[j] == front[j];
    assert (front + [e])[|front|] == e;
  }

  lemma SameMovers(front: Table, e: ModelEntry, current: Table, o: Options, name: string)
    requires forall t :: !(Lower(Routing(e.model)) == name && Moves(current, o, e, t))
    ensures AnyMover(front + [e], current, o, name) <==> AnyMover(front, current, o, name)
    ensures forall v :: RenamedAs(front, current, o, name, v) ==> RenamedAs(front + [e], current, o, name, v)
  {
    hide Lower, Routing, Moves, EqualFold;
    MoversBefore(front, e, current, o, name);
    hide Mover;
    forall v | RenamedAs(front, current, o, name, v) ensures RenamedAs(front + [e], current, o, name, v) {
      var k, t :| 0 <= k < |front| && FirstMover(front, current, o, name, k, t) &&
                  v == if Disagrees(front, current, o, name, t) then "" else t;
      assert FirstMover(front + [e], current, o, name, k, t);
      assert Disagrees(front + [e], current, o, name, t) <==> Disagrees(front, current, o, name, t);
    }
  }

  lemma MoverAdded(front: Table, e: ModelEntry, current: Table, o: Options, name: string, target: string)
    requires Lower(Routing(e.model)) == name && Moves(current, o, e, target)
    requires forall t :: Moves(current, o, e, t) ==> t == target
    ensures AnyMover(front + [e], current, o, name)
    ensures !AnyMover(front, current, o, name) ==> RenamedAs(front + [e], current, o, name, target)
    ensures forall v :: RenamedAs(front, current, o, name, v) ==>
      RenamedAs(front + [e], current, o, name, if EqualFold(v, target) then v else "")
  {
    hide Lower, Routing, Moves;
    MoversBefore(front, e, current, o, name);
    hide Mover, EqualFold;
    var all, n := front + [e], |front|;
    assert Mover(all, current, o, name, n, target);
    if !AnyMover(front, current, o, name) {
      assert FirstMover(all, current, o, name, n, target);
      assert !Disagrees(all, current, o, name, target) by { FoldsItself(target); }
    }
    forall v | RenamedAs(front, current, o, name, v)
      ensures RenamedAs(all, current, o, name, if EqualFold(v, target) then v else "")
    {
      var k, t :| 0 <= k < |front| && FirstMover(front, current, o, name, k, t) &&
                  v == if Disagrees(front, current, o, name, t) then "" else t;
      assert FirstMover(all, current, o, name, k, t);
      assert Disagrees(all, current, o, name, t) <==> Disagrees(front, current, o, name, t) || !EqualFold(target, t);
      FoldsBack(v, target);
    }
  }

  lemma FoldsItself(a: string)
    ensures EqualFold(a, a)
  {
  }

  lemma FoldsBack(a: string, b: string)
    ensures EqualFold(a, b) <==> EqualFold(b, a)
  {
  }

  // ---- allowlists ----------------------------------------------------------------------------

  function NameId(name: string): string {
    Lower(TrimSpace(Routing(name)))
  }

  /** The table has a model that routes under the name. */
  ghost predicate Configured(current: Table, name: string) {
    exists c :: c in current && Lower(Routing(c.model)) == name
  }

  lemma ConfiguredExactly(current: Table)
    ensures forall n :: n in ConfiguredNames(current) <==> Configured(current, n)
  {
    hide Lower, Routing;
  }

  /** Allowed name `a` goes on as `b`: under the name its model was renamed to, or as it was, and only if the table
      has such a model. */
  ghost predicate GoesOnAs(previous: Table, current: Table, o: Options, a: string, b: string) {
    if exists v :: v != "" && AnyMover(previous, current, o, NameId(a)) && RenamedAs(previous, current, o, NameId(a), v)
    then b != "" && RenamedAs(previous, current, o, NameId(a), b) && Configured(current, Lower(Routing(b)))
    else b == a && Configured(current, NameId(a))
  }

  /** The renamed allowlist holds exactly what its names go on as. */
  lemma AllowedExactly(previous: Channel, current: Channel, o: Options, s: Scope, b: string)
    ensures b in Renamed(previous, current, o, s).allowed <==>
      exists a :: a in s.allowed && GoesOnAs(previous.table, current.table, o, a, b)
  {
    hide Lower, Routing, TrimSpace, Renames, FilterMap, AnyMover, RenamedAs, ConfiguredNames, Configured;
    var renamed, configured := Renames(previous.table, current.table, o), ConfiguredNames(current.table);
    FilterMapMembers((name: string) => RenameAllowed(renamed, configured, name), s.allowed);
    forall a ensures RenameAllowed(renamed, configured, a) == Some(b) <==>
                     GoesOnAs(previous.table, current.table, o, a, b)
    {
      OneName(previous.table, current.table, o, a, b);
    }
  }

  lemma OneName(previous: Table, current: Table, o: Options, a: string, b: string)
    ensures RenameAllowed(Renames(previous, current, o), ConfiguredNames(current), a) == Some(b) <==>
            GoesOnAs(previous, current, o, a, b)
  {
    hide Lower, Routing, TrimSpace, Renames, AnyMover, RenamedAs, ConfiguredNames, Configured;
    ConfiguredExactly(current);
    RenamesExactly(previous, current, o, NameId(a));
    forall v, w | RenamedAs(previous, current, o, NameId(a), v) && RenamedAs(previous, current, o, NameId(a), w)
      ensures v == w
    {
      RenamedOnce(previous, current, o, NameId(a), v, w);
    }
  }

  lemma RenamedOnce(previous: Table, current: Table, o: Options, name: string, v: string, w: string)
    requires RenamedAs(previous, current, o, name, v) && RenamedAs(previous, current, o, name, w)
    ensures v == w
  {
    hide Moves, EqualFold, Disagrees, Lower, Routing;
    var k, t :| 0 <= k < |previous| && FirstMover(previous, current, o, name, k, t) &&
                v == if Disagrees(previous, current, o, name, t) then "" else t;
    var j, u :| 0 <= j < |previous| && FirstMover(previous, current, o, name, j, u) &&
                w == if Disagrees(previous, current, o, name, u) then "" else u;
    assert k == j;
    MovesOnce(current, o, previous[k], t, u);
  }

  lemma MovesOnce(current: Table, o: Options, e: ModelEntry, t: string, u: string)
    requires Moves(current, o, e, t) && Moves(current, o, e, u)
    ensures t == u
  {
    hide Moves;
    RenamedToExactly(current, o, e);
  }

  // ---- keys that keep what stayed ------------------------------------------------------------

  /** The key may use the row, by a name of its own. */
  predicate Uses(s: Scope, e: ModelEntry) {
    AllowsModel(s, e.model) && Routing(e.model) !in {"", "*"}
  }

  ghost predicate AllStay(previous: Table, current: Table, s: Scope) {
    forall e :: e in previous && AllowsModel(s, e.model) ==> Stays(current, e)
  }

  /** When every row a key may use is still there, none of its names moves. */
  lemma NoNameMoves(previous: Channel, current: Channel, o: Options, s: Scope, a: string)
    requires Subject(s) && a in s.allowed && Trimmed(a) && AllStay(previous.table, current.table, s)
    ensures !AnyMover(previous.table, current.table, o, NameId(a))
  {
    hide Lower, Routing, TrimSpace, Stays, SameUpstream;
    assert Trimmed(Routing(a));
    forall k, t | 0 <= k < |previous.table| ensures !Mover(previous.table, current.table, o, NameId(a), k, t) {
      var e := previous.table[k];
      if Lower(Routing(e.model)) == NameId(a) {
        assert EqualFold(Routing(a), Routing(e.model));
        assert AllowsModel(s, e.model) && e in previous.table;
        assert Stays(current.table, e);
      }
    }
  }

  /** If every row a key may use is still there with its name and upstream, its allowlist loses none of them. */
  lemma StayingNamesStay(previous: Channel, current: Channel, o: Options, s: Scope, e: ModelEntry)
    requires Subject(s) && (forall a :: a in s.allowed ==> Trimmed(a)) && AllStay(previous.table, current.table, s)
    requires e in previous.table && Uses(s, e)
    ensures exists a :: a in s.allowed && a in Renamed(previous, current, o, s).allowed &&
                        EqualFold(Routing(a), Routing(e.model))
    ensures AllowsModel(Renamed(previous, current, o, s), e.model)
  {
    hide Lower, Routing, TrimSpace, Stays, Renames, AnyMover, RenamedAs, NewAllowed;
    var a :| a in s.allowed && EqualFold(Routing(a), Routing(e.model));
    assert Trimmed(Routing(a)) && NameId(a) == Lower(Routing(e.model));
    NoNameMoves(previous, current, o, s, a);
    StaysConfigured(current.table, e);
    AllowedExactly(previous, current, o, s, a);
    assert GoesOnAs(previous.table, current.table, o, a, a);
    assert a in Renamed(previous, current, o, s).allowed;
  }

  lemma StaysConfigured(current: Table, e: ModelEntry)
    requires Stays(current, e)
    ensures Configured(current, Lower(Routing(e.model)))
  {
    hide Lower, Routing, SameUpstream;
  }

  lemma NothingRenamed(previous: Channel, current: Channel, o: Options, s: Scope)
    requires Subject(s) && (forall a :: a in s.allowed ==> Trimmed(a)) && AllStay(previous.table, current.table, s)
    ensures !AnyRenamed(Renames(previous.table, current.table, o), s.allowed)
  {
    hide Lower, Routing, TrimSpace, Renames, AnyMover, RenamedAs, AllStay;
    forall i | 0 <= i < |s.allowed| ensures Replacement(Renames(previous.table, current.table, o), s.allowed[i]) == "" {
      NoNameMoves(previous, current, o, s, s.allowed[i]);
      RenamesExactly(previous.table, current.table, o, NameId(s.allowed[i]));
    }
  }

  /** A key that reaches something, and whose rows all stayed, keeps every one of them and the state it had. */
  lemma StayingKeyKeeps(previous: Channel, current: Channel, o: Options, s: Scope)
    requires Subject(s) && (forall a :: a in s.allowed ==> Trimmed(a)) && AllStay(previous.table, current.table, s)
    requires exists e :: e in previous.table && Uses(s, e)
    requires exists a :: Reaches(previous, s, a)
    ensures var after := ScopeAfter(previous, current, o, s);
      && !after.empty && after.disabled == s.disabled && after.auto == s.auto
      && forall e :: e in previous.table && Uses(s, e) ==> AllowsModel(after, e.model)
  {
    hide Renames, NewAllowed, AnyRenamed, Targets, Offending, NormalizeDetected, AllStay, AllowsModel, Reaches,
         ConfiguredNames, Routing;
    NothingRenamed(previous, current, o, s);
    OldTargetsAreReachable(previous, s);
    var after, renamed := ScopeAfter(previous, current, o, s), Renamed(previous, current, o, s);
    var e :| e in previous.table && Uses(s, e);
    StayingNamesStay(previous, current, o, s, e);
    assert renamed.allowed != [];
    forall e | e in previous.table && Uses(s, e) ensures AllowsModel(after, e.model) {
      if after != s {
        StayingNamesStay(previous, current, o, s, e);
        AllowsDependsOn(renamed, after, e.model);
      }
    }
  }

  // ---- keys that follow a rename -------------------------------------------------------------

  /** The new name of the row's model is settled: its rows agree, and the name routes as itself. */
  ghost predicate Settled(previous: Table, current: Table, o: Options, e: ModelEntry, target: string) {
    && Moves(current, o, e, target) && target != "" && Routing(target) == target
    && forall j, u :: 0 <= j < |previous| && Mover(previous, current, o, Lower(Routing(e.model)), j, u) ==> u == target
  }

  /** A key that may use a row follows it to its new name, unless it is left with nothing. */
  lemma KeyFollows(previous: Channel, current: Channel, o: Options, s: Scope, e: ModelEntry, target: string)
    requires Subject(s) && (forall a :: a in s.allowed ==> Trimmed(a))
    requires e in previous.table && Uses(s, e) && Settled(previous.table, current.table, o, e, target)
    ensures target in Renamed(previous, current, o, s).allowed
    ensures var after := ScopeAfter(previous, current, o, s);
      after.empty || AllowsModel(after, target)
  {
    hide Lower, Routing, TrimSpace, Renames, NewAllowed, Targets, Offending, ConfiguredNames, Moves, NormalizeDetected;
    var a :| a in s.allowed && EqualFold(Routing(a), Routing(e.model));
    assert Trimmed(Routing(a)) && NameId(a) == Lower(Routing(e.model));
    FollowsTo(previous.table, current.table, o, a, e, target);
    AllowedExactly(previous, current, o, s, target);
    var renamed, after := Renamed(previous, current, o, s), ScopeAfter(previous, current, o, s);
    assert target in renamed.allowed;
    if after == s && !after.empty {
      UnchangedAllows(previous, current, o, s, a, target);
    } else if !after.empty {
      assert after.allowed == renamed.allowed;
    }
  }

  lemma FollowsTo(previous: Table, current: Table, o: Options, a: string, e: ModelEntry, target: string)
    requires e in previous && NameId(a) == Lower(Routing(e.model)) && Settled(previous, current, o, e, target)
    ensures GoesOnAs(previous, current, o, a, target)
    ensures NameId(a) in Renames(previous, current, o) && Renames(previous, current, o)[NameId(a)] == target
  {
    hide Lower, Routing, TrimSpace, Moves, Renames;
    var k :| 0 <= k < |previous| && previous[k] == e;
    assert Mover(previous, current, o, NameId(a), k, target);
    RenamesExactly(previous, current, o, NameId(a));
    var v := Renames(previous, current, o)[NameId(a)];
    var i, t :| 0 <= i < |previous| && FirstMover(previous, current, o, NameId(a), i, t) &&
                v == if Disagrees(previous, current, o, NameId(a), t) then "" else t;
    assert t == target;
    FoldsItself(target);
    assert !Disagrees(previous, current, o, NameId(a), t);
    TargetConfigured(current, o, e, target);
  }

  lemma TargetConfigured(current: Table, o: Options, e: ModelEntry, target: string)
    requires Moves(current, o, e, target) && Routing(target) == target
    ensures Configured(current, Lower(Routing(target)))
  {
    hide Lower, Routing, Stays, Alias, SameUpstream;
    var k :| 0 <= k < |current| && Continues(current, o, e, k) && Routing(current[k].model) == target;
    assert current[k] in current;
  }

  /** A scope that was not rewritten has the new name already, under the spelling it has. */
  lemma UnchangedAllows(previous: Channel, current: Channel, o: Options, s: Scope, a: string, target: string)
    requires Subject(s) && a in s.allowed && ScopeAfter(previous, current, o, s) == s
    requires target != "" && target in Renamed(previous, current, o, s).allowed
    requires NameId(a) in Renames(previous.table, current.table, o)
    requires Renames(previous.table, current.table, o)[NameId(a)] == target
    ensures AllowsModel(s, target)
  {
    hide Lower, Routing, TrimSpace, Renames, Targets, Offending, ConfiguredNames, NormalizeDetected, NewAllowed;
    var i :| 0 <= i < |s.allowed| && s.allowed[i] == a;
    var renamed := Renames(previous.table, current.table, o);
    assert Replacement(renamed, s.allowed[i]) == target;
    if AnyRenamed(renamed, s.allowed) {
      assert s.allowed == Renamed(previous, current, o, s).allowed;
    } else {
      assert target == a;
    }
  }

  // ---- upstreams that pass -------------------------------------------------------------------

  /** An upstream a key reached still passes its list, whether that was rebuilt or not. */
  lemma OldUpstreamsPass(previous: Channel, current: Channel, o: Options, s: Scope, a: string)
    requires Reaches(previous, s, a) && (Usable(a) || Routing(a) in {"", "*"})
    ensures AllowsUpstream(ScopeAfter(previous, current, o, s), a)
  {
    hide Renames, NewAllowed, AnyRenamed, Targets, Offending, NormalizeDetected, ConfiguredNames, AllowsModel,
         FinalUpstreams, Routing, Lower, HasControl, TrimSpace, AllowsUpstream;
    var after := ScopeAfter(previous, current, o, s);
    OldTargetsAreReachable(previous, s);
    var targets := OldTargets(previous, s);
    if after.detected == s.detected {
      UpstreamDependsOn(after, s, a);
    } else {
      RebuiltBoundary(targets, after, a);
      var i :| 0 <= i < |targets| && targets[i] == a;
      if Usable(a) {
        assert TrimSpace(a) == a;
        assert Matches(targets[i], a);
      }
    }
  }

  /** A key whose rows all stayed still reaches every usable upstream that a row with its name still leads to. */
  lemma StayingReachKept(previous: Channel, current: Channel, o: Options, s: Scope, e: ModelEntry, c: ModelEntry,
                         a: string)
    requires Subject(s) && (forall n :: n in s.allowed ==> Trimmed(n)) && AllStay(previous.table, current.table, s)
    requires e in previous.table && Uses(s, e) && a in FinalUpstreams(previous, e) && AllowsUpstream(s, a)
    requires Usable(a) || Routing(a) in {"", "*"}
    requires c in current.table && c.model == e.model && a in FinalUpstreams(current, c)
    ensures Reaches(current, ScopeAfter(previous, current, o, s), a)
  {
    hide Routing, Lower, HasControl, AllowsModel, AllowsUpstream, FinalUpstreams, ScopeAfter, AllStay;
    assert Reaches(previous, s, a);
    StayingKeyKeeps(previous, current, o, s);
    OldUpstreamsPass(previous, current, o, s, a);
  }

  // ---- the whole scope -----------------------------------------------------------------------

  /** Under the renamed allowlist the key would reach, with its old list, an upstream it did not reach. */
  ghost predicate Gains(previous: Channel, current: Channel, o: Options, s: Scope) {
    exists row, a :: row in current.table && a in FinalUpstreams(current, row) &&
      AllowsModel(Renamed(previous, current, o, s), row.model) && AllowsUpstream(s, a) &&
      forall was :: Reaches(previous, s, was) ==> !EqualFold(was, a)
  }

  /** One of its names goes on under another one. */
  ghost predicate NameMoves(previous: Channel, current: Channel, o: Options, s: Scope) {
    exists a, v :: a in s.allowed && v !in {"", a} && AnyMover(previous.table, current.table, o, NameId(a)) &&
                   RenamedAs(previous.table, current.table, o, NameId(a), v)
  }

  lemma GainsExactly(previous: Channel, current: Channel, o: Options, s: Scope)
    ensures Offending(current, Renamed(previous, current, o, s), s, OldTargets(previous, s)) <==>
            Gains(previous, current, o, s)
  {
    hide Renamed, OldTargets, FinalUpstreams, AllowsModel, AllowsUpstream, Reaches, EqualFold, InFold;
    forall a
      ensures InFold(OldTargets(previous, s), a) <==> exists was :: Reaches(previous, s, was) && EqualFold(was, a)
    {
      InFoldMeansReached(previous, s, a);
    }
  }

  lemma NameMovesExactly(previous: Channel, current: Channel, o: Options, s: Scope)
    ensures AnyRenamed(Renames(previous.table, current.table, o), s.allowed) <==> NameMoves(previous, current, o, s)
  {
    hide Renames, Lower, Routing, TrimSpace, AnyMover, RenamedAs;
    var renamed := Renames(previous.table, current.table, o);
    forall a ensures NameId(a) in renamed <==> AnyMover(previous.table, current.table, o, NameId(a)) {
      RenamesExactly(previous.table, current.table, o, NameId(a));
    }
    if i :| 0 <= i < |s.allowed| && Replacement(renamed, s.allowed[i]) !in {"", s.allowed[i]} {
      RenamesExactly(previous.table, current.table, o, NameId(s.allowed[i]));
      assert s.allowed[i] in s.allowed;
    }
    if a, v :| a in s.allowed && v !in {"", a} && AnyMover(previous.table, current.table, o, NameId(a)) &&
               RenamedAs(previous.table, current.table, o, NameId(a), v) {
      RenamesExactly(previous.table, current.table, o, NameId(a));
      RenamedOnce(previous.table, current.table, o, NameId(a), v, renamed[NameId(a)]);
      var i :| 0 <= i < |s.allowed| && s.allowed[i] == a;
      assert Replacement(renamed, s.allowed[i]) == v;
    }
  }

  /** A restricted key's scope is rewritten if and only if one of its names moves or it would gain an upstream. Then it
      has the renamed names, its list is rebuilt exactly when it would gain one, and it is emptied and disabled when no
      name is left or it reached nothing. */
  lemma ScopeAfterExactly(previous: Channel, current: Channel, o: Options, s: Scope)
    requires Renames(previous.table, current.table, o) != map[] && Subject(s)
    ensures var after, renamed := ScopeAfter(previous, current, o, s), Renamed(previous, current, o, s);
            var gains := Gains(previous, current, o, s);
            var emptied := renamed.allowed == [] || forall a :: !Reaches(previous, s, a);
      if !gains && !NameMoves(previous, current, o, s) then after == s
      else after == Scope(if emptied then [] else renamed.allowed,
                          if gains then NormalizeDetected(OldTargets(previous, s)) else s.detected,
                          emptied, s.auto, s.disabled || emptied)
  {
    hide Renames, NewAllowed, AnyRenamed, ConfiguredNames, Targets, Offending, NormalizeDetected, Gains, NameMoves,
        Reaches;
    GainsExactly(previous, current, o, s);
    NameMovesExactly(previous, current, o, s);
    OldTargetsAreReachable(previous, s);
    if OldTargets(previous, s) != [] { assert OldTargets(previous, s)[0] in OldTargets(previous, s); }
  }

  /** Nothing is rewritten when no row moves, nor for a key without an allowlist or one that is empty. */
  lemma NothingToRewrite(previous: Channel, current: Channel, o: Options, s: Scope)
    ensures !Subject(s) ==> ScopeAfter(previous, current, o, s) == s
    ensures (forall name :: !AnyMover(previous.table, current.table, o, name)) ==>
      ScopeAfter(previous, current, o, s) == s
  {
    hide Renames, AnyMover, NewAllowed, AnyRenamed, Targets, Offending;
    var renamed := Renames(previous.table, current.table, o);
    if forall name :: !AnyMover(previous.table, current.table, o, name) {
      forall name ensures name !in renamed { RenamesExactly(previous.table, current.table, o, name); }
      assert renamed.Keys == {} by { assert |renamed.Keys| == 0; }
      assert renamed == map[];
    }
  }
}
