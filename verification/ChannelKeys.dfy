/** Key rows of a channel edit: what an editor omitted, stale scopes, and rebuilding the key list. */
module ChannelKeys {
  import opened Names
  import opened ModelTable
  import opened Seqs

  /** A submitted key row; the `has…` flags say which fields the editor sent. */
  datatype Submitted = Submitted(
    apiKey: string, allowed: seq<string>, detected: seq<string>, empty: bool, auto: bool,
    hasAllowed: bool, hasDetected: bool, hasAuto: bool, priority: Option<int>)

  /** A stored row with what an edit may inherit from it. */
  datatype Stored = Stored(key: ApiKey, priority: int)

  predicate ManuallyDisabled(s: Scope) {
    s.disabled && !s.empty
  }

  // ---- omitted metadata ----------------------------------------------------------------------

  function FirstByValue(existing: seq<Stored>, value: string): Option<Stored> {
    if existing == [] then None
    else if existing[0].key.apiKey == value then Some(existing[0])
    else FirstByValue(existing[1..], value)
  }

  /** The stored row a submitted row continues: the one at its place when the value matches, else the
      first with that value. */
  function Origin(existing: seq<Stored>, i: nat, value: string): Option<Stored> {
    if i < |existing| && existing[i].key.apiKey == value then Some(existing[i]) else FirstByValue(existing, value)
  }

  function Inherit(s: Submitted, was: Stored): Submitted {
    var scope := was.key.scope;
    var allowedChanged := s.hasAllowed && (s.allowed != scope.allowed || s.empty != scope.empty);
    var detectedChanged := s.hasDetected && s.detected != scope.detected;
    s.(auto := if s.hasAuto then s.auto else scope.auto && !allowedChanged && !detectedChanged,
       priority := if s.priority.None? then Some(was.priority) else s.priority,
       detected := if s.hasDetected then s.detected else scope.detected,
       allowed := if s.hasAllowed then s.allowed else scope.allowed,
       empty := if s.hasAllowed then s.empty else scope.empty)
  }

  function Inherited(existing: seq<Stored>, i: nat, s: Submitted): Submitted {
    var was := Origin(existing, i, s.apiKey);
    if was.None? then s else Inherit(s, was.value)
  }

  predicate FirstAt(existing: seq<Stored>, n: nat, value: string) {
    n < |existing| && existing[n].key.apiKey == value && forall k :: 0 <= k < n ==> existing[k].key.apiKey != value
  }

  lemma {:induction false} FirstByValueIs(existing: seq<Stored>, n: nat, value: string)
    requires FirstAt(existing, n, value)
    ensures FirstByValue(existing, value) == Some(existing[n])
  {
    if n > 0 { FirstByValueIs(existing[1..], n - 1, value); }
  }

  lemma {:induction false} FirstByValueNone(existing: seq<Stored>, value: string)
    requires forall k :: 0 <= k < |existing| ==> existing[k].key.apiKey != value
    ensures FirstByValue(existing, value) == None
  {
    if existing != [] { FirstByValueNone(existing[1..], value); }
  }

  method IndexByValue(existing: seq<Stored>) returns (byValue: map<string, Stored>)
    ensures forall v :: (if v in byValue then Some(byValue[v]) else None) == FirstByValue(existing, v)
  {
    byValue := map[];
    for i := 0 to |existing|
      invariant forall v :: v in byValue ==>
          exists k :: 0 <= k < i && existing[k] == byValue[v] && FirstAt(existing, k, v)
      invariant forall k :: 0 <= k < i ==> existing[k].key.apiKey in byValue
    {
      if existing[i].key.apiKey !in byValue {
        assert FirstAt(existing, i, existing[i].key.apiKey);
        byValue := byValue[existing[i].key.apiKey := existing[i]];
      }
    }
    forall v ensures (if v in byValue then Some(byValue[v]) else None) == FirstByValue(existing, v) {
      if v in byValue {
        var k :| 0 <= k < |existing| && existing[k] == byValue[v] && FirstAt(existing, k, v);
        FirstByValueIs(existing, k, v);
      } else {
        FirstByValueNone(existing, v);
      }
    }
  }

  /** Fills what one submitted row left out from the stored row it continues. */
  method FillOmitted(submitted: Submitted, was: Stored) returns (s: Submitted)
    ensures s == Inherit(submitted, was)
  {
    s := submitted;
    var scope := was.key.scope;
    if !s.hasAuto {
      var allowedChanged := s.hasAllowed && (s.allowed != scope.allowed || s.empty != scope.empty);
      var detectedChanged := s.hasDetected && s.detected != scope.detected;
      s := s.(auto := scope.auto && !allowedChanged && !detectedChanged);
    }
    if s.priority.None? {
      s := s.(priority := Some(was.priority));
    }
    if !s.hasDetected {
      s := s.(detected := scope.detected);
    }
    if !s.hasAllowed {
      s := s.(allowed := scope.allowed, empty := scope.empty);
    }
  }

  method PreserveOmittedMetadata(submitted: array<Submitted>, existing: seq<Stored>)
    modifies submitted
    ensures forall i :: 0 <= i < submitted.Length ==> submitted[i] == Inherited(existing, i, old(submitted[i]))
  {
    hide FirstByValue, Inherit;
    var byValue := IndexByValue(existing);
    for i := 0 to submitted.Length
      invariant forall k :: 0 <= k < i ==> submitted[k] == Inherited(existing, k, old(submitted[k]))
      invariant forall k :: i <= k < submitted.Length ==> submitted[k] == old(submitted[k])
    {
      var value := submitted[i].apiKey;
      var was := if value in byValue then Some(byValue[value]) else None;
      if i < |existing| && existing[i].key.apiKey == value {
        was := Some(existing[i]);
      }
      if was.None? {
        continue;
      }
      submitted[i] := FillOmitted(submitted[i], was.value);
    }
  }

  // ---- stale scopes --------------------------------------------------------------------------

  function ScopeName(name: string): string {
    Lower(TrimSpace(Routing(name)))
  }

  predicate InTable(table: Table, name: string) {
    name != "" && exists e :: e in table && ScopeName(e.model) == name
  }

  function KeptModels(table: Table, allowed: seq<string>): seq<string> {
    Filter(a => InTable(table, ScopeName(a)), allowed)
  }

  /** A key whose listed models are all gone is marked empty rather than left with an open list. */
  function Pruned(table: Table, s: Submitted): Submitted {
    if s.empty || s.allowed == [] then s
    else
      var kept := KeptModels(table, s.allowed);
      s.(allowed := kept, empty := kept == [])
  }

  method ConfiguredScopeNames(table: Table) returns (configured: set<string>)
    ensures forall n :: n in configured <==> InTable(table, n)
  {
    hide ScopeName;
    configured := {};
    for i := 0 to |table|
      invariant forall n :: n in configured <==> n != "" && exists k :: 0 <= k < i && ScopeName(table[k].model) == n
    {
      var name := ScopeName(table[i].model);
      if name != "" {
        configured := configured + {name};
      }
    }
    forall n ensures n in configured <==> InTable(table, n) {
      if InTable(table, n) {
        var e :| e in table && ScopeName(e.model) == n;
        var k :| 0 <= k < |table| && table[k] == e;
      }
    }
  }

  method KeepModels(table: Table, configured: set<string>, allowed: seq<string>) returns (kept: seq<string>)
    requires forall n :: n in configured <==> InTable(table, n)
    ensures kept == KeptModels(table, allowed)
  {
    hide InTable, ScopeName, Filter;
    ghost var keep := (a: string) => InTable(table, ScopeName(a));
    kept := [];
    assert Filter(keep, []) == [] by { NothingKept(keep); }
    for j := 0 to |allowed|
      invariant kept == Filter(keep, allowed[..j])
    {
      assert allowed[..j + 1] == allowed[..j] + [allowed[j]];
      FilterStep(keep, allowed[..j], allowed[j]);
      if ScopeName(allowed[j]) in configured {
        kept := kept + [allowed[j]];
      }
    }
    assert allowed[..|allowed|] == allowed;
  }

  method NormalizeScopesForModels(keys: array<Submitted>, table: Table)
    modifies keys
    ensures forall i :: 0 <= i < keys.Length ==> keys[i] == Pruned(table, old(keys[i]))
  {
    hide InTable, KeptModels;
    var configured := ConfiguredScopeNames(table);
    for i := 0 to keys.Length
      invariant forall k :: 0 <= k < i ==> keys[k] == Pruned(table, old(keys[k]))
      invariant forall k :: i <= k < keys.Length ==> keys[k] == old(keys[k])
    {
      if keys[i].empty || keys[i].allowed == [] {
        continue;
      }
      var kept := KeepModels(table, configured, keys[i].allowed);
      keys[i] := keys[i].(allowed := kept);
      if kept == [] {
        keys[i] := keys[i].(empty := true);
      }
    }
  }

  lemma NothingKept<A>(p: A -> bool)
    ensures Filter(p, []) == []
  {
  }

  /** The table has a model that routes as the allowed name, up to blanks and case, and that is no blank. */
  lemma InTableTells(table: Table, allowed: string)
    ensures InTable(table, ScopeName(allowed)) <==>
      Lower(TrimSpace(Routing(allowed))) != "" &&
      exists e :: e in table && Lower(TrimSpace(Routing(e.model))) == Lower(TrimSpace(Routing(allowed)))
  {
    hide Lower, TrimSpace, Routing;
  }

  /** Pruning keeps a restricted key restricted and leaves only models of the table; an emptied list
      is marked; pruning again changes nothing. */
  lemma PrunedIsSafe(table: Table, s: Submitted)
    ensures var after := Pruned(table, s);
      && (s.empty || s.allowed != [] ==> after.empty || after.allowed != [])
      && (forall a :: a in after.allowed && !s.empty ==> a in s.allowed && InTable(table, ScopeName(a)))
      && (forall a :: a in s.allowed && InTable(table, ScopeName(a)) ==> a in after.allowed)
      && (!s.empty && s.allowed != [] ==> (after.empty <==> forall a :: a in s.allowed ==>
                                           !InTable(table, ScopeName(a))))
      && Pruned(table, after) == after
  {
    hide InTable, ScopeName, Filter;
    var keep := (a: string) => InTable(table, ScopeName(a));
    FilterMembers(keep, s.allowed);
    var kept := KeptModels(table, s.allowed);
    if kept != [] { assert kept[0] in kept; }
    FilterAll(keep, kept);
  }

  // ---- rebuilding the key list ---------------------------------------------------------------

  function Matches(keys: seq<ApiKey>, value: string): seq<ApiKey> {
    Filter((k: ApiKey) => k.apiKey == value, keys)
  }

  /** How often `value` occurs among the submitted rows. */
  function Occurrences(keys: seq<Submitted>, value: string): nat {
    Count((s: Submitted) => s.apiKey == value, keys)
  }

  /** The stored occurrence of the same key value, counted from the front, that row `i` continues. */
  function Continues(was: seq<ApiKey>, keys: seq<Submitted>, i: nat): Option<ApiKey>
    requires i < |keys|
  {
    var matches, k := Matches(was, keys[i].apiKey), Occurrences(keys[..i], keys[i].apiKey);
    if k < |matches| then Some(matches[k]) else None
  }

  function RebuiltKey(was: seq<ApiKey>, keys: seq<Submitted>, i: nat): ApiKey
    requires i < |keys|
  {
    var origin, s := Continues(was, keys, i), keys[i];
    var disabled := (origin.Some? && ManuallyDisabled(origin.value.scope)) || s.empty;
    ApiKey(0, i, s.apiKey, Scope(s.allowed, s.detected, s.empty, s.auto, disabled))
  }

  method GroupByValue(was: seq<ApiKey>) returns (byValue: map<string, seq<ApiKey>>)
    ensures forall v :: (if v in byValue then byValue[v] else []) == Matches(was, v)
  {
    hide Filter;
    byValue := map[];
    forall v ensures Matches([], v) == [] { NothingKept((k: ApiKey) => k.apiKey == v); }
    for i := 0 to |was|
      invariant forall v :: (if v in byValue then byValue[v] else []) == Matches(was[..i], v)
    {
      assert was[..i + 1] == was[..i] + [was[i]];
      forall v { FilterStep((k: ApiKey) => k.apiKey == v, was[..i], was[i]); }
      var value := was[i].apiKey;
      byValue := byValue[value := (if value in byValue then byValue[value] else []) + [was[i]]];
    }
    assert was[..|was|] == was;
  }

  function Min(a: nat, b: nat): nat {
    if a < b then a else b
  }

  function At(counts: map<string, nat>, v: string): nat {
    if v in counts then counts[v] else 0
  }

  lemma OccurrencesStep(keys: seq<Submitted>, s: Submitted, value: string)
    ensures Occurrences(keys + [s], value) == Occurrences(keys, value) + if s.apiKey == value then 1 else 0
  {
    assert (keys + [s])[..|keys|] == keys;
  }

  /** The k-th row with a key value continues the k-th stored row with it. */
  method RebuildKeys(was: seq<ApiKey>, keys: seq<Submitted>) returns (rows: seq<ApiKey>)
    ensures |rows| == |keys|
    ensures forall i :: 0 <= i < |keys| ==> rows[i] == RebuiltKey(was, keys, i)
  {
    hide Matches, Occurrences;
    var byValue := GroupByValue(was);
    var next: map<string, nat> := map[];
    rows := [];
    forall v ensures Occurrences([], v) == 0 { NoOccurrence(v); }
    for i := 0 to |keys|
      invariant |rows| == i && forall k :: 0 <= k < i ==> rows[k] == RebuiltKey(was, keys, k)
      invariant forall v :: At(next, v) == Min(Occurrences(keys[..i], v), |Matches(was, v)|)
    {
      assert keys[..i + 1] == keys[..i] + [keys[i]];
      forall v { OccurrencesStep(keys[..i], keys[i], v); }
      var s := keys[i];
      var disabled, occurrence := false, At(next, s.apiKey);
      var matches := if s.apiKey in byValue then byValue[s.apiKey] else [];
      assert matches == Matches(was, s.apiKey);
      if occurrence < |matches| {
        disabled := matches[occurrence].scope.disabled && !matches[occurrence].scope.empty;
        next := next[s.apiKey := occurrence + 1];
      }
      rows := rows + [ApiKey(0, i, s.apiKey, Scope(s.allowed, s.detected, s.empty, s.auto, disabled || s.empty))];
    }
  }

  lemma NoOccurrence(v: string)
    ensures Occurrences([], v) == 0
  {
  }

  /** How often the stored rows before place `j` have the value. */
  function StoredBefore(was: seq<ApiKey>, j: nat, value: string): nat
    requires j <= |was|
  {
    Count((k: ApiKey) => k.apiKey == value, was[..j])
  }

  lemma {:induction false} MatchAt(was: seq<ApiKey>, value: string, j: nat)
    requires j < |was| && was[j].apiKey == value
    ensures StoredBefore(was, j, value) < |Matches(was, value)|
    ensures Matches(was, value)[StoredBefore(was, j, value)] == was[j]
    ensures |Matches(was, value)| == StoredBefore(was, |was|, value)
  {
    hide Filter, Count;
    var same := (k: ApiKey) => k.apiKey == value;
    MatchCount(was, value);
    MatchCount(was[..j], value);
    assert was == was[..j + 1] + was[j + 1..] && was[..j + 1] == was[..j] + [was[j]];
    FilterStep(same, was[..j], was[j]);
    FilterAppend(same, was[..j + 1], was[j + 1..]);
    assert was[..j][..j] == was[..j];
  }

  lemma {:induction false} MatchCount(was: seq<ApiKey>, value: string)
    ensures |Matches(was, value)| == StoredBefore(was, |was|, value)
  {
    if was != [] {
      var front := was[..|was| - 1];
      MatchCount(front, value);
      assert front[..|front|] == front && was[..|was|] == was;
    }
  }

  /** When the key list is rebuilt, a row takes its scope as submitted and is disabled exactly if that is empty or the
      stored row with as many rows of its value before it, if there is one, was disabled by hand. */
  lemma RebuildTells(was: seq<ApiKey>, keys: seq<Submitted>, i: nat)
    requires i < |keys|
    ensures var s, row, before := keys[i], RebuiltKey(was, keys, i), Occurrences(keys[..i], keys[i].apiKey);
      && row.apiKey == s.apiKey && row.index == i
      && row.scope.(disabled := false) == Scope(s.allowed, s.detected, s.empty, s.auto, false)
      && (forall j :: 0 <= j < |was| && was[j].apiKey == s.apiKey && StoredBefore(was, j, s.apiKey) == before ==>
            (row.scope.disabled <==> s.empty || (was[j].scope.disabled && !was[j].scope.empty)))
      && (StoredBefore(was, |was|, s.apiKey) <= before ==> (row.scope.disabled <==> s.empty))
  {
    hide Matches, Occurrences, StoredBefore;
    MatchCount(was, keys[i].apiKey);
    forall j | 0 <= j < |was| && was[j].apiKey == keys[i].apiKey { MatchAt(was, keys[i].apiKey, j); }
  }

  // ---- editing in place ----------------------------------------------------------------------

  predicate SameValues(was: seq<ApiKey>, keys: seq<Submitted>) {
    |was| == |keys| && forall i :: 0 <= i < |was| ==> was[i].apiKey == keys[i].apiKey
  }

  /** The scope a row is given when the key values are unchanged; an equal scope is not written. */
  function EditedScope(was: Scope, s: Submitted): Scope {
    if was.allowed == s.allowed && was.detected == s.detected && was.empty == s.empty && was.auto == s.auto then was
    else Scope(s.allowed, s.detected, s.empty, s.auto, ManuallyDisabled(was) || s.empty)
  }

  lemma {:induction false} SameOccurrences(was: seq<ApiKey>, keys: seq<Submitted>, n: nat, value: string)
    requires SameValues(was, keys) && n <= |was|
    ensures Occurrences(keys[..n], value) == |Matches(was[..n], value)|
  {
    if n > 0 {
      SameOccurrences(was, keys, n - 1, value);
      assert keys[..n] == keys[..n - 1] + [keys[n - 1]] && was[..n] == was[..n - 1] + [was[n - 1]];
      OccurrencesStep(keys[..n - 1], keys[n - 1], value);
      FilterStep((k: ApiKey) => k.apiKey == value, was[..n - 1], was[n - 1]);
    }
  }

  /** With unchanged key values every row continues the stored row at its own place. */
  lemma ContinuesInPlace(was: seq<ApiKey>, keys: seq<Submitted>, i: nat)
    requires SameValues(was, keys) && i < |was|
    ensures Continues(was, keys, i) == Some(was[i])
  {
    hide Filter, Count;
    var same := (k: ApiKey) => k.apiKey == keys[i].apiKey;
    SameOccurrences(was, keys, i, keys[i].apiKey);
    assert was == was[..i + 1] + was[i + 1..] && was[..i + 1] == was[..i] + [was[i]];
    FilterStep(same, was[..i], was[i]);
    FilterAppend(same, was[..i + 1], was[i + 1..]);
  }

  /** Editing rows in place and rebuilding them agree on every scope, as long as the stored rows keep
      the rule that an emptied key is disabled. */
  lemma EditAgreesWithRebuild(was: seq<ApiKey>, keys: seq<Submitted>, i: nat)
    requires SameValues(was, keys) && i < |was|
    requires was[i].scope.empty ==> was[i].scope.disabled
    ensures RebuiltKey(was, keys, i).scope == EditedScope(was[i].scope, keys[i])
  {
    hide Matches, Occurrences;
    ContinuesInPlace(was, keys, i);
  }

  /** Across the whole edit, an editor that sends no scope leaves the stored scope of the key at its place as
      it is if and only if its models are all still in the table; otherwise it only takes models away. */
  lemma OmittedScopeUntouched(existing: seq<Stored>, table: Table, i: nat, s: Submitted)
    requires i < |existing| && existing[i].key.apiKey == s.apiKey
    requires !s.hasAllowed && !s.hasDetected && !s.hasAuto
    ensures var scope := existing[i].key.scope;
            var after := EditedScope(scope, Pruned(table, Inherited(existing, i, s)));
      && (after == scope <==> scope.empty || forall a :: a in scope.allowed ==> InTable(table, ScopeName(a)))
      && after.detected == scope.detected && after.auto == scope.auto
      && (Restricted(scope) ==> Restricted(after)) && (scope.disabled ==> after.disabled)
      && (forall name :: AllowsModel(after, name) ==> AllowsModel(scope, name))
  {
    hide InTable, ScopeName, Filter, Routing, Lower, KeptModels;
    var scope, inherited := existing[i].key.scope, Inherited(existing, i, s);
    assert inherited.allowed == scope.allowed && inherited.empty == scope.empty;
    PrunedIsSafe(table, inherited);
    if !scope.empty && scope.allowed != [] { KeptAllExactly(table, scope.allowed); }
  }

  lemma KeptAllExactly(table: Table, allowed: seq<string>)
    ensures KeptModels(table, allowed) == allowed <==> forall a :: a in allowed ==> InTable(table, ScopeName(a))
  {
    hide InTable, ScopeName, Filter;
    var keep := (a: string) => InTable(table, ScopeName(a));
    FilterMembers(keep, allowed);
    if forall a :: a in allowed ==> keep(a) { FilterAll(keep, allowed); }
  }

  /** What becomes of the scope of a stored key when its row is submitted again: fields that were sent are taken, the
      others kept; the mark of discovery is kept, unless it is sent, only while no list that was sent differs. */
  lemma InheritTells(existing: seq<Stored>, i: nat, s: Submitted)
    requires i < |existing| && existing[i].key.apiKey == s.apiKey
    ensures var was, after := existing[i].key.scope, Inherited(existing, i, s);
      && (if s.hasAllowed then after.allowed == s.allowed && after.empty == s.empty
          else after.allowed == was.allowed && after.empty == was.empty)
      && after.detected == (if s.hasDetected then s.detected else was.detected)
      && (s.hasAuto ==> after.auto == s.auto)
      && (!s.hasAuto ==> (after.auto <==> was.auto && after.allowed == was.allowed && after.empty == was.empty &&
                                          after.detected == was.detected))
      && (s.priority.Some? ==> after.priority == s.priority)
      && (s.priority.None? ==> after.priority == Some(existing[i].priority))
      && after.apiKey == s.apiKey
  {
  }

  /** A row elsewhere continues the first stored row with its value, and a new value starts afresh. */
  lemma OriginTells(existing: seq<Stored>, i: nat, value: string, n: nat)
    requires i >= |existing| || existing[i].key.apiKey != value
    ensures FirstAt(existing, n, value) ==> Origin(existing, i, value) == Some(existing[n])
    ensures (forall k :: 0 <= k < |existing| ==> existing[k].key.apiKey != value) ==> Origin(existing, i, value) == None
  {
    hide FirstByValue;
    if FirstAt(existing, n, value) {
      FirstByValueIs(existing, n, value);
    } else if forall k :: 0 <= k < |existing| ==> existing[k].key.apiKey != value {
      FirstByValueNone(existing, value);
    }
  }

  /** An edited scope is what was submitted; it is disabled exactly if it is empty or the key was disabled by hand,
      unless nothing in it changed, when the key's state stays. */
  lemma EditTells(was: Scope, s: Submitted)
    ensures var after := EditedScope(was, s);
      && after.allowed == s.allowed && after.detected == s.detected && after.empty == s.empty && after.auto == s.auto
      && (was.(disabled := after.disabled) != after ==>
            (after.disabled <==> s.empty || (was.disabled && !was.empty)))
      && (was.(disabled := after.disabled) == after ==> after == was)
  {
  }

  // ---- switching a key by hand ---------------------------------------------------------------

  /** Switching an automatically emptied key, either way, turns the automatic mark into a manual state. */
  function Toggled(s: Scope, disable: bool): Scope {
    if s.empty then s.(empty := false, disabled := disable) else s.(disabled := disable)
  }

  /** Any number of toggles, in order. */
  function ToggledAll(s: Scope, toggles: seq<bool>): Scope {
    if toggles == [] then s else Toggled(ToggledAll(s, toggles[..|toggles| - 1]), toggles[|toggles| - 1])
  }

  /** After any toggles the lists stand, the last one decides, and the restriction is lifted if and only if
      the key was emptied automatically and has no list left. */
  lemma {:induction false} ToggleLiftsExactly(s: Scope, toggles: seq<bool>)
    ensures var after := ToggledAll(s, toggles);
      && after == (if toggles == [] then s else s.(empty := false, disabled := toggles[|toggles| - 1]))
      && (Restricted(s) && !Restricted(after) <==> toggles != [] && s.empty && s.allowed == [])
  {
    if toggles != [] { ToggleLiftsExactly(s, toggles[..|toggles| - 1]); }
    assert Restricted(s) == (s.empty || s.allowed != []);
  }
}
