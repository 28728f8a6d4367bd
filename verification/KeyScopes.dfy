/** Renaming the model allowlists of restricted keys when a refresh normalises the channel's names. */
module KeyScopes {
  import opened Names
  import opened ModelTable
  import opened Seqs
  import opened ModelSave

  // ---- which names were renamed --------------------------------------------------------------

  function UpstreamName(e: ModelEntry): string {
    Routing(e.Target())
  }

  predicate StillThere(current: Table, e: ModelEntry) {
    exists c :: c in GroupRows(current, e.Group()) && c.model == e.model && UpstreamName(c) == UpstreamName(e)
  }

  /** The first of `rows` with the same upstream as `e`. */
  function Successor(rows: Table, e: ModelEntry): Option<ModelEntry> {
    if rows == [] then None
    else if UpstreamName(rows[0]) == UpstreamName(e) then Some(rows[0])
    else Successor(rows[1..], e)
  }

  /** The routing name `e` goes on under, when normalisation moved it. */
  function RenamedTo(current: Table, o: Options, e: ModelEntry): Option<string> {
    var alias := Alias(e.model, o);
    if alias == e.model || StillThere(current, e) then None
    else
      var next := Successor(GroupRows(current, Lower(alias)), e);
      if next.Some? then Some(Routing(next.value.model)) else None
  }

  function OldName(e: ModelEntry): string {
    Lower(Routing(e.model))
  }

  /** Old routing names to new ones; "" marks a name whose rows went to different places. */
  function Renames(previous: Table, current: Table, o: Options): map<string, string> {
    if previous == [] then map[]
    else
      var m := Renames(previous[..|previous| - 1], current, o);
      var e := previous[|previous| - 1];
      var target := RenamedTo(current, o, e);
      if target.None? then m
      else if OldName(e) !in m then m[OldName(e) := target.value]
      else if !EqualFold(m[OldName(e)], target.value) then m[OldName(e) := ""]
      else m
  }

  function ConfiguredNames(current: Table): set<string> {
    set e | e in current :: Lower(Routing(e.model))
  }

  // ---- one key -------------------------------------------------------------------------------

  function Replacement(renamed: map<string, string>, name: string): string {
    var identity := Lower(TrimSpace(Routing(name)));
    if identity in renamed then renamed[identity] else ""
  }

  /** What one allowed name becomes; None when the new table has no such model. */
  function RenameAllowed(renamed: map<string, string>, configured: set<string>, name: string): Option<string> {
    var r := Replacement(renamed, name);
    if r != "" then
      if Lower(Routing(r)) in configured then Some(r) else None
    else
      if Lower(TrimSpace(Routing(name))) in configured then Some(name) else None
  }

  function NewAllowed(renamed: map<string, string>, configured: set<string>, allowed: seq<string>): seq<string> {
    FilterMap((name: string) => RenameAllowed(renamed, configured, name), allowed)
  }

  predicate AnyRenamed(renamed: map<string, string>, allowed: seq<string>) {
    exists i :: 0 <= i < |allowed| && Replacement(renamed, allowed[i]) !in {"", allowed[i]}
  }

  function RowTargets(c: Channel, s: Scope, row: ModelEntry): seq<string> {
    if AllowsModel(s, row.model) then Filter((a: string) => AllowsUpstream(s, a), FinalUpstreams(c, row)) else []
  }

  /** The upstream models a scope reaches through `rows` of the channel. */
  function Targets(c: Channel, s: Scope, rows: Table): seq<string> {
    if rows == [] then []
    else Targets(c, s, rows[..|rows| - 1]) + RowTargets(c, s, rows[|rows| - 1])
  }

  predicate InFold(names: seq<string>, name: string) {
    exists i :: 0 <= i < |names| && EqualFold(names[i], name)
  }

  /** The renamed allowlist lets the key at an upstream it could not reach before. */
  predicate Offends(current: Channel, candidate: Scope, s: Scope, oldTargets: seq<string>, row: ModelEntry) {
    && AllowsModel(candidate, row.model)
    && exists a :: a in FinalUpstreams(current, row) && AllowsUpstream(s, a) && !InFold(oldTargets, a)
  }

  predicate Offending(current: Channel, candidate: Scope, s: Scope, oldTargets: seq<string>) {
    exists row :: row in current.table && Offends(current, candidate, s, oldTargets, row)
  }

  function DetectedName(value: string): Option<string> {
    var name := Routing(TrimSpace(value));
    if name == "" || HasControl(name) then None else Some(name)
  }

  /** Usable names of `values`, first spelling of each. */
  function NormalizeDetected(values: seq<string>): seq<string> {
    if values == [] then []
    else
      var names, name := NormalizeDetected(values[..|values| - 1]), DetectedName(values[|values| - 1]);
      if name.None? || InFold(names, name.value) then names else names + [name.value]
  }

  predicate Subject(s: Scope) {
    !s.empty && s.allowed != []
  }

  /** The scope a key is given, or None when its scope stays as it is. */
  function RemapScope(previous: Channel, current: Channel, o: Options, s: Scope): Option<Scope> {
    var renamed := Renames(previous.table, current.table, o);
    if renamed == map[] || !Subject(s) then None
    else
      var allowed := NewAllowed(renamed, ConfiguredNames(current.table), s.allowed);
      var oldTargets := Targets(previous, s, previous.table);
      var offending := Offending(current, s.(allowed := allowed), s, oldTargets);
      if !offending && !AnyRenamed(renamed, s.allowed) then None
      else
        var empty := allowed == [] || oldTargets == [];
        Some(Scope(if empty then [] else allowed,
                   if offending then NormalizeDetected(oldTargets) else s.detected,
                   empty, s.auto, s.disabled || empty))
  }

  /** Scope updates by key index; a scope equal to the stored one is not written. */
  function ScopeUpdates(previous: Channel, current: Channel, o: Options, keys: seq<ApiKey>): map<int, Scope> {
    if keys == [] then map[]
    else
      var m, key := ScopeUpdates(previous, current, o, keys[..|keys| - 1]), keys[|keys| - 1];
      var s := RemapScope(previous, current, o, key.scope);
      if s.Some? && s.value != key.scope then m[key.index := s.value] else m
  }

  // ---- the loops -----------------------------------------------------------------------------

  method BuildRenames(previous: Table, current: Table, o: Options) returns (renamed: map<string, string>)
    ensures renamed == Renames(previous, current, o)
  {
    hide Lower, Routing, Alias, UpstreamName, StillThere, GroupRows, Successor, ModelEntry.Group;
    renamed := map[];
    for i := 0 to |previous|
      invariant renamed == Renames(previous[..i], current, o)
    {
      assert previous[..i + 1][..i] == previous[..i];
      var e := previous[i];
      var alias := Alias(e.model, o);
      if alias == e.model || StillThere(current, e) {
        continue;
      }
      var matches := GroupRows(current, Lower(alias));
      var after := Successor(matches, e);
      if after.None? {
        continue;
      }
      var oldName, target := OldName(e), Routing(after.value.model);
      if oldName in renamed && !EqualFold(renamed[oldName], target) {
        renamed := renamed[oldName := ""];
      } else if oldName !in renamed {
        renamed := renamed[oldName := target];
      }
    }
    assert previous[..|previous|] == previous;
  }

  method RemapAllowed(renamed: map<string, string>, configured: set<string>, names: seq<string>)
    returns (allowed: seq<string>, changed: bool)
    ensures allowed == NewAllowed(renamed, configured, names)
    ensures changed == AnyRenamed(renamed, names)
  {
    hide Lower, Routing, TrimSpace, FilterMap;
    ghost var rename := (name: string) => RenameAllowed(renamed, configured, name);
    allowed, changed := [], false;
    assert FilterMap(rename, []) == [] by { NothingMapped(rename); }
    for i := 0 to |names|
      invariant allowed == FilterMap(rename, names[..i])
      invariant changed == exists k :: 0 <= k < i && Replacement(renamed, names[k]) !in {"", names[k]}
    {
      assert names[..i + 1] == names[..i] + [names[i]];
      FilterMapStep(rename, names[..i], names[i]);
      var name := names[i];
      var identity := Lower(TrimSpace(Routing(name)));
      var replacement := if identity in renamed then renamed[identity] else "";
      if replacement != "" {
        changed := changed || name != replacement;
        name := replacement;
        identity := Lower(Routing(name));
      }
      if identity in configured {
        allowed := allowed + [name];
      }
    }
    assert names[..|names|] == names;
  }

  lemma NothingMapped<A, B>(f: A -> Option<B>)
    ensures FilterMap(f, []) == []
  {
  }

  method CollectTargets(c: Channel, s: Scope) returns (targets: seq<string>)
    ensures targets == Targets(c, s, c.table)
  {
    hide AllowsModel, AllowsUpstream, FinalUpstreams, Filter;
    targets := [];
    for i := 0 to |c.table|
      invariant targets == Targets(c, s, c.table[..i])
    {
      assert c.table[..i + 1][..i] == c.table[..i];
      var row := c.table[i];
      if !AllowsModel(s, row.model) {
        assert targets + [] == targets;
        continue;
      }
      var actuals := FinalUpstreams(c, row);
      var reached := [];
      NothingKept((a: string) => AllowsUpstream(s, a));
      for k := 0 to |actuals|
        invariant reached == Filter((a: string) => AllowsUpstream(s, a), actuals[..k])
      {
        assert actuals[..k + 1] == actuals[..k] + [actuals[k]];
        FilterStep((a: string) => AllowsUpstream(s, a), actuals[..k], actuals[k]);
        if AllowsUpstream(s, actuals[k]) {
          reached := reached + [actuals[k]];
        }
      }
      assert actuals[..|actuals|] == actuals;
      targets := targets + reached;
    }
    assert c.table[..|c.table|] == c.table;
  }

  lemma NothingKept<A>(p: A -> bool)
    ensures Filter(p, []) == []
  {
  }

  method FindOffending(current: Channel, candidate: Scope, s: Scope, oldTargets: seq<string>) returns (offending: bool)
    ensures offending == Offending(current, candidate, s, oldTargets)
  {
    hide AllowsModel, AllowsUpstream, FinalUpstreams, InFold;
    offending := false;
    for i := 0 to |current.table|
      invariant offending == exists k :: 0 <= k < i && Offends(current, candidate, s, oldTargets, current.table[k])
    {
      var row := current.table[i];
      if !AllowsModel(candidate, row.model) {
        continue;
      }
      var actuals := FinalUpstreams(current, row);
      var j := 0;
      while j < |actuals|
        invariant 0 <= j <= |actuals|
        invariant forall k :: 0 <= k < j ==> !(AllowsUpstream(s, actuals[k]) && !InFold(oldTargets, actuals[k]))
        invariant offending == exists k :: 0 <= k < i && Offends(current, candidate, s, oldTargets, current.table[k])
      {
        if AllowsUpstream(s, actuals[j]) && !InFold(oldTargets, actuals[j]) {
          assert Offends(current, candidate, s, oldTargets, row);
          offending := true;
          break;
        }
        j := j + 1;
      }
    }
  }

  method NormalizeDetectedModels(values: seq<string>) returns (names: seq<string>)
    ensures names == NormalizeDetected(values)
  {
    hide Lower, Routing, TrimSpace, HasControl;
    var seen: set<string> := {};
    names := [];
    for i := 0 to |values|
      invariant names == NormalizeDetected(values[..i])
      invariant forall n :: Lower(n) in seen <==> InFold(names, n)
    {
      assert values[..i + 1][..i] == values[..i];
      var name := Routing(TrimSpace(values[i]));
      if name == "" || HasControl(name) {
        continue;
      }
      if Lower(name) in seen {
        continue;
      }
      InFoldStep(names, name);
      seen := seen + {Lower(name)};
      names := names + [name];
    }
    assert values[..|values|] == values;
  }

  lemma InFoldStep(names: seq<string>, name: string)
    ensures forall n :: InFold(names + [name], n) <==> InFold(names, n) || EqualFold(name, n)
  {
    hide Lower;
    var longer := names + [name];
    assert longer[|names|] == name;
    forall n ensures InFold(longer, n) <==> InFold(names, n) || EqualFold(name, n) {
      if InFold(names, n) {
        var i :| 0 <= i < |names| && EqualFold(names[i], n);
        assert longer[i] == names[i];
      }
    }
  }

  method RemapKeyScope(previous: Channel, current: Channel, renamed: map<string, string>, o: Options, s: Scope)
    returns (scope: Option<Scope>)
    requires renamed == Renames(previous.table, current.table, o) != map[]
    ensures scope == RemapScope(previous, current, o, s)
  {
    hide Renames, ConfiguredNames, NewAllowed, AnyRenamed, Targets, Offending, NormalizeDetected;
    if s.empty || s.allowed == [] {
      return None;
    }
    var allowed, changed := RemapAllowed(renamed, ConfiguredNames(current.table), s.allowed);
    var oldTargets := CollectTargets(previous, s);
    var detected := s.detected;
    var offending := FindOffending(current, s.(allowed := allowed), s, oldTargets);
    if offending {
      detected := NormalizeDetectedModels(oldTargets);
      changed := true;
    }
    if !changed {
      return None;
    }
    var scopeEmpty := allowed == [] || oldTargets == [];
    if scopeEmpty {
      allowed := [];
    }
    scope := Some(Scope(allowed, detected, scopeEmpty, s.auto, s.disabled || scopeEmpty));
  }

  method RemapNormalizedApiKeyScopes(previous: Channel, current: Channel, o: Options, keys: seq<ApiKey>)
    returns (updates: map<int, Scope>)
    ensures updates == if o.lowercase || o.stripPrefix then ScopeUpdates(previous, current, o, keys) else map[]
  {
    hide Renames;
    updates := map[];
    if !o.lowercase && !o.stripPrefix {
      return;
    }
    var renamed := BuildRenames(previous.table, current.table, o);
    if renamed == map[] {
      NoRenames(previous, current, o, keys);
      return;
    }
    for i := 0 to |keys|
      invariant updates == ScopeUpdates(previous, current, o, keys[..i])
    {
      hide RemapScope;
      assert keys[..i + 1][..i] == keys[..i];
      var scope := RemapKeyScope(previous, current, renamed, o, keys[i].scope);
      if scope.Some? && scope.value != keys[i].scope {
        updates := updates[keys[i].index := scope.value];
      }
    }
    assert keys[..|keys|] == keys;
  }

  lemma {:induction false} NoRenames(previous: Channel, current: Channel, o: Options, keys: seq<ApiKey>)
    requires Renames(previous.table, current.table, o) == map[]
    ensures ScopeUpdates(previous, current, o, keys) == map[]
  {
    hide Renames;
    if keys != [] { NoRenames(previous, current, o, keys[..|keys| - 1]); }
  }
}
