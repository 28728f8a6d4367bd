/** The key scopes a refresh writes: discovery results bound to the keys of the moment, renamed
    allowlists for the rest. */
module ModelApply {
  import opened Names
  import opened ModelTable
  import opened Seqs
  import opened ModelSave
  import opened KeyScopes
  import opened KeyScopesLaws
  import opened ModelProbes

  // ---- binding probes to keys ----------------------------------------------------------------

  /** The last result probed with exactly this key row. */
  function LastProbe(probes: seq<Probe>, id: int, apiKey: string): Option<Probe> {
    if probes == [] then None
    else
      var p := probes[|probes| - 1];
      if p.id == id && p.apiKey == apiKey then Some(p) else LastProbe(probes[..|probes| - 1], id, apiKey)
  }

  function Bound(probes: seq<Probe>, key: ApiKey): Option<Probe> {
    var p := LastProbe(probes, key.id, key.apiKey);
    if p.None? then None else Some(p.value.(index := key.index))
  }

  method BindKeyModels(keys: seq<ApiKey>, probes: seq<Probe>) returns (bound: seq<Probe>)
    ensures bound == FilterMap((k: ApiKey) => Bound(probes, k), keys)
  {
    hide FilterMap;
    var byRow: map<(int, string), Probe> := map[];
    for i := 0 to |probes|
      invariant forall id, k ::
          (if (id, k) in byRow then Some(byRow[(id, k)]) else None) == LastProbe(probes[..i], id, k)
    {
      assert probes[..i + 1][..i] == probes[..i];
      byRow := byRow[(probes[i].id, probes[i].apiKey) := probes[i]];
    }
    assert probes[..|probes|] == probes;
    ghost var bind := (k: ApiKey) => Bound(probes, k);
    assert FilterMap(bind, []) == [] by { NothingMapped(bind); }
    bound := [];
    for i := 0 to |keys|
      invariant bound == FilterMap(bind, keys[..i])
    {
      assert keys[..i + 1] == keys[..i] + [keys[i]];
      FilterMapStep(bind, keys[..i], keys[i]);
      var row := (keys[i].id, keys[i].apiKey);
      assert (if row in byRow then Some(byRow[row]) else None) == LastProbe(probes, keys[i].id, keys[i].apiKey);
      if row in byRow {
        bound := bound + [byRow[row].(index := keys[i].index)];
      }
    }
    assert keys[..|keys|] == keys;
  }

  // ---- the scope a successful probe gives ----------------------------------------------------

  /** The routing names a probe reported, folded. */
  function ProbedNames(models: Table): set<string> {
    set e | e in models && Routing(TrimSpace(e.Target())) != "" :: Lower(Routing(TrimSpace(e.Target())))
  }

  /** The name a row is matched by under one upstream protocol: Gemini takes the model from the URL. */
  function ProbedAs(c: Channel, logical: string, row: ModelEntry, gemini: bool): string {
    var actual := ResolveActual(c.table, logical, row);
    Routing(if gemini then actual else AfterBodyRules(actual, c.rules))
  }

  datatype Found = Found(models: seq<string>, actuals: seq<string>)

  function Note(names: seq<string>, name: string): seq<string> {
    if InFold(names, name) then names else names + [name]
  }

  function RowFound(c: Channel, probed: set<string>, row: ModelEntry, protocols: seq<bool>, f: Found): Found
    decreases |protocols|
  {
    if protocols == [] then f
    else
      var g := RowFound(c, probed, row, protocols[..|protocols| - 1], f);
      var actual := ProbedAs(c, TrimSpace(row.model), row, protocols[|protocols| - 1]);
      if Lower(actual) !in probed then g
      else Found(Note(g.models, TrimSpace(row.model)), Note(g.actuals, actual))
  }

  function TableFound(c: Channel, probed: set<string>, protocols: seq<bool>, rows: Table): Found
    decreases |rows|
  {
    if rows == [] then Found([], [])
    else
      var f, row := TableFound(c, probed, protocols, rows[..|rows| - 1]), rows[|rows| - 1];
      if TrimSpace(row.model) == "" then f else RowFound(c, probed, row, protocols, f)
  }

  /** The scope of a key whose probe succeeded with `models`. */
  function DiscoveredScope(c: Channel, protocols: seq<bool>, models: Table, s: Scope): Scope {
    var f := if models == [] then Found([], []) else TableFound(c, ProbedNames(models), protocols, c.table);
    Scope(f.models, f.actuals, f.models == [], true, (s.disabled && !s.empty) || f.models == [])
  }

  ghost predicate Folds(seen: set<string>, names: seq<string>) {
    forall n :: Lower(n) in seen <==> InFold(names, n)
  }

  lemma FoldsStep(seen: set<string>, names: seq<string>, name: string)
    requires Folds(seen, names)
    ensures Note(names, name) == (if Lower(name) in seen then names else names + [name])
    ensures Folds(seen + {Lower(name)}, Note(names, name))
  {
    hide Lower;
    InFoldStep(names, name);
    assert InFold(names, name) <==> Lower(name) in seen;
  }

  method DetectScope(c: Channel, protocols: seq<bool>, models: Table) returns (f: Found)
    ensures f == TableFound(c, ProbedNames(models), protocols, c.table)
  {
    hide Lower, Routing, TrimSpace, ResolveActual, AfterBodyRules, Note, Folds, ProbedAs;
    var probed := ProbedNames(models);
    var seen: set<string>, seenActual: set<string> := {}, {};
    f := Found([], []);
    NothingFolds();
    for i := 0 to |c.table|
      invariant f == TableFound(c, probed, protocols, c.table[..i])
      invariant Folds(seen, f.models) && Folds(seenActual, f.actuals)
    {
      assert c.table[..i + 1][..i] == c.table[..i];
      var row := c.table[i];
      var logical := TrimSpace(row.model);
      if logical == "" {
        continue;
      }
      ghost var before := f;
      assert protocols[..0] == [];
      for k := 0 to |protocols|
        invariant f == RowFound(c, probed, row, protocols[..k], before)
        invariant Folds(seen, f.models) && Folds(seenActual, f.actuals)
      {
        assert protocols[..k + 1][..k] == protocols[..k];
        var actual := ProbedAs(c, logical, row, protocols[k]);
        if Lower(actual) !in probed {
          continue;
        }
        FoldsStep(seenActual, f.actuals, actual);
        FoldsStep(seen, f.models, logical);
        f := Found(if Lower(logical) in seen then f.models else f.models + [logical],
                   if Lower(actual) in seenActual then f.actuals else f.actuals + [actual]);
        seenActual := seenActual + {Lower(actual)};
        seen := seen + {Lower(logical)};
      }
      assert protocols[..|protocols|] == protocols;
    }
    assert c.table[..|c.table|] == c.table;
  }

  lemma NothingFolds()
    ensures Folds({}, [])
  {
  }

  // ---- what a probe-derived scope admits -----------------------------------------------------

  ghost predicate Sound(probed: set<string>, f: Found) {
    && (f.models == [] <==> f.actuals == [])
    && forall a :: a in f.actuals ==> Lower(a) in probed
  }

  lemma {:induction false} RowFoundSound(c: Channel, probed: set<string>, row: ModelEntry, protocols: seq<bool>,
                                         f: Found)
    requires Sound(probed, f)
    ensures Sound(probed, RowFound(c, probed, row, protocols, f))
    decreases |protocols|
  {
    hide Lower, TrimSpace, ProbedAs;
    if protocols != [] {
      RowFoundSound(c, probed, row, protocols[..|protocols| - 1], f);
    }
  }

  lemma {:induction false} TableFoundSound(c: Channel, probed: set<string>, protocols: seq<bool>, rows: Table)
    ensures Sound(probed, TableFound(c, probed, protocols, rows))
    decreases |rows|
  {
    hide Lower, TrimSpace, RowFound;
    if rows != [] {
      TableFoundSound(c, probed, protocols, rows[..|rows| - 1]);
      RowFoundSound(c, probed, rows[|rows| - 1], protocols, TableFound(c, probed, protocols, rows[..|rows| - 1]));
    } else {
      hide Sound;
      assert Sound(probed, Found([], [])) by { NothingSound(probed); }
    }
  }

  lemma NothingSound(probed: set<string>)
    ensures Sound(probed, Found([], []))
  {
  }

  /** A probed key reaches only models its probe reported, apart from the blank and "*" names. */
  lemma DiscoveredScopeBounded(c: Channel, protocols: seq<bool>, models: Table, s: Scope, after: Channel,
                               actual: string)
    requires Reaches(after, DiscoveredScope(c, protocols, models, s), actual)
    ensures Routing(actual) in {"", "*"} ||
            exists e :: e in models && EqualFold(Routing(Routing(TrimSpace(e.Target()))), Routing(Routing(actual)))
  {
    hide Lower, TrimSpace, Routing, TableFound, FinalUpstreams;
    var scope := DiscoveredScope(c, protocols, models, s);
    TableFoundSound(c, ProbedNames(models), protocols, c.table);
    assert scope.detected != [];
    if Routing(actual) !in {"", "*"} {
      var d :| d in scope.detected && EqualFold(Routing(d), Routing(Routing(actual)));
      assert Lower(d) in ProbedNames(models);
      var e :| e in models && Lower(Routing(TrimSpace(e.Target()))) == Lower(d);
      RoutingFolds(d, Routing(TrimSpace(e.Target())));
    }
  }

  // ---- the scopes a refresh writes -----------------------------------------------------------

  /** The probe that refreshes a key: merging refreshes only scopes that came from discovery. */
  function Refresher(probes: seq<Probe>, merge: bool, key: ApiKey): Option<Probe> {
    var p := Bound(probes, key);
    if p.None? || (merge && !key.scope.auto) then None else p
  }

  predicate Refreshes(probes: seq<Probe>, merge: bool, key: ApiKey) {
    var p := Refresher(probes, merge, key);
    p.Some? && !Failed(p.value)
  }

  function RenamedScope(previous: Channel, current: Channel, o: Options, s: Scope): Scope {
    if o.lowercase || o.stripPrefix then ScopeAfter(previous, current, o, s) else s
  }

  /** The scope a key ends a refresh with. */
  function FinalScope(previous: Channel, current: Channel, o: Options, protocols: seq<bool>, probes: seq<Probe>,
                      merge: bool, key: ApiKey): Scope {
    if Refreshes(probes, merge, key) then
      DiscoveredScope(current, protocols, Refresher(probes, merge, key).value.models, key.scope)
    else RenamedScope(previous, current, o, key.scope)
  }

  /** Discovery scopes of the keys, or None when one of their lists does not fit the column. */
  function FetchedScopes(c: Channel, protocols: seq<bool>, fits: seq<string> -> bool, probes: seq<Probe>, merge: bool,
                         keys: seq<ApiKey>): Option<map<int, Scope>>
    decreases |keys|
  {
    if keys == [] then Some(map[])
    else
      var key := keys[|keys| - 1];
      var m := FetchedScopes(c, protocols, fits, probes, merge, keys[..|keys| - 1]);
      if m.None? || !Refreshes(probes, merge, key) then m
      else
        var scope := DiscoveredScope(c, protocols, Refresher(probes, merge, key).value.models, key.scope);
        if !fits(scope.detected) || !fits(scope.allowed) then None
        else if scope == key.scope then m
        else Some(m.value[key.index := scope])
  }

  method KeysByIndex(keys: seq<ApiKey>) returns (byIndex: map<int, ApiKey>)
    requires DistinctIndexes(keys)
    ensures forall i :: 0 <= i < |keys| ==> keys[i].index in byIndex && byIndex[keys[i].index] == keys[i]
  {
    byIndex := map[];
    for i := 0 to |keys|
      invariant forall k :: 0 <= k < i ==> keys[k].index in byIndex && byIndex[keys[k].index] == keys[k]
    {
      byIndex := byIndex[keys[i].index := keys[i]];
    }
  }

  function RefreshSteps(probes: seq<Probe>, merge: bool, keys: seq<ApiKey>): seq<Probe> {
    FilterMap((k: ApiKey) => Refresher(probes, merge, k), keys)
  }

  lemma RefreshStep(probes: seq<Probe>, merge: bool, keys: seq<ApiKey>, key: ApiKey)
    ensures var p := Refresher(probes, merge, key);
      RefreshSteps(probes, merge, keys + [key]) ==
      if p.Some? then RefreshSteps(probes, merge, keys) + [p.value] else RefreshSteps(probes, merge, keys)
  {
    hide FilterMap, Refresher;
    FilterMapStep((k: ApiKey) => Refresher(probes, merge, k), keys, key);
  }

  method ProbedScope(c: Channel, protocols: seq<bool>, models: Table, s: Scope) returns (scope: Scope)
    ensures scope == DiscoveredScope(c, protocols, models, s)
  {
    hide TableFound, ProbedNames;
    var f := Found([], []);
    if models != [] {
      f := DetectScope(c, protocols, models);
    }
    var empty := f.models == [];
    scope := Scope(f.models, f.actuals, empty, true, (s.disabled && !s.empty) || empty);
  }

  /** The first `j` results are those of the first `n` keys, and `m` holds their scopes. */
  ghost predicate Progress(c: Channel, protocols: seq<bool>, fits: seq<string> -> bool, probes: seq<Probe>, merge: bool,
                           keys: seq<ApiKey>, results: seq<Probe>, n: nat, j: nat, m: map<int, Scope>) {
    && n <= |keys| && j <= |results|
    && results == RefreshSteps(probes, merge, keys)
    && results[..j] == RefreshSteps(probes, merge, keys[..n])
    && FetchedScopes(c, protocols, fits, probes, merge, keys[..n]) == Some(m)
  }

  lemma Start(c: Channel, protocols: seq<bool>, fits: seq<string> -> bool, probes: seq<Probe>, merge: bool,
              keys: seq<ApiKey>, results: seq<Probe>)
    requires results == RefreshSteps(probes, merge, keys)
    ensures Progress(c, protocols, fits, probes, merge, keys, results, 0, 0, map[])
  {
    RefreshNothing(probes, merge);
    assert keys[..0] == [];
  }

  /** Finds the key of result `j` and says what handling it does. */
  lemma Advance(c: Channel, protocols: seq<bool>, fits: seq<string> -> bool, probes: seq<Probe>, merge: bool,
                keys: seq<ApiKey>, results: seq<Probe>, n: nat, j: nat, m: map<int, Scope>) returns (k: nat)
    requires Progress(c, protocols, fits, probes, merge, keys, results, n, j, m) && j < |results|
    ensures k < |keys| && results[j].index == keys[k].index
    ensures Failed(results[j]) ==> Progress(c, protocols, fits, probes, merge, keys, results, k + 1, j + 1, m)
    ensures var scope := DiscoveredScope(c, protocols, results[j].models, keys[k].scope);
      !Failed(results[j]) ==>
        if !fits(scope.detected) || !fits(scope.allowed)
        then FetchedScopes(c, protocols, fits, probes, merge, keys).None?
        else Progress(c, protocols, fits, probes, merge, keys, results, k + 1, j + 1,
                      if scope == keys[k].scope then m else m[keys[k].index := scope])
  {
    hide RefreshSteps, Refresher, DiscoveredScope, Failed;
    assert keys[..|keys|] == keys;
    k := NextResult(c, protocols, fits, probes, merge, keys, n, m);
    RefresherIndex(probes, merge, keys[k]);
    assert keys[..k + 1][..k] == keys[..k] && keys[..k + 1] == keys[..k] + [keys[k]];
    RefreshStep(probes, merge, keys[..k], keys[k]);
    RefreshPrefix(probes, merge, keys, k + 1);
    assert results[j] == Refresher(probes, merge, keys[k]).value;
    assert results[..j + 1] == RefreshSteps(probes, merge, keys[..k + 1]);
    if FetchedScopes(c, protocols, fits, probes, merge, keys[..k + 1]).None? {
      TooLong(c, protocols, fits, probes, merge, keys, k + 1);
    }
  }

  /** Looking every result's key up by index is going over the keys in order. */
  method BuildFetchedScopes(c: Channel, protocols: seq<bool>, fits: seq<string> -> bool, probes: seq<Probe>,
                            merge: bool,
                            keys: seq<ApiKey>, results: seq<Probe>)
    returns (updates: Option<map<int, Scope>>)
    requires DistinctIndexes(keys) && results == RefreshSteps(probes, merge, keys)
    ensures updates == FetchedScopes(c, protocols, fits, probes, merge, keys)
  {
    hide RefreshSteps, FetchedScopes, Progress, DiscoveredScope, Failed;
    var byIndex := KeysByIndex(keys);
    var m: map<int, Scope> := map[];
    ghost var n: nat := 0;
    Start(c, protocols, fits, probes, merge, keys, results);
    for j := 0 to |results|
      invariant Progress(c, protocols, fits, probes, merge, keys, results, n, j, m)
    {
      ghost var k := Advance(c, protocols, fits, probes, merge, keys, results, n, j, m);
      n := k + 1;
      if Failed(results[j]) {
        continue;
      }
      var key := byIndex[results[j].index];
      var scope := ProbedScope(c, protocols, results[j].models, key.scope);
      if !fits(scope.detected) || !fits(scope.allowed) {
        return None;
      }
      if scope != key.scope {
        m := m[results[j].index := scope];
      }
    }
    RestUnrefreshed(c, protocols, fits, probes, merge, keys, results, n, m);
    updates := Some(m);
  }

  lemma RefreshNothing(probes: seq<Probe>, merge: bool)
    ensures RefreshSteps(probes, merge, []) == []
  {
  }

  lemma RefresherIndex(probes: seq<Probe>, merge: bool, key: ApiKey)
    ensures Refresher(probes, merge, key).Some? ==> Refresher(probes, merge, key).value.index == key.index
  {
  }

  /** Results of a prefix of the keys are a prefix of the results. */
  lemma {:induction false} RefreshPrefix(probes: seq<Probe>, merge: bool, keys: seq<ApiKey>, n: nat)
    requires n <= |keys|
    ensures RefreshSteps(probes, merge, keys[..n]) <= RefreshSteps(probes, merge, keys)
    decreases |keys|
  {
    hide RefreshSteps, Refresher;
    if n == |keys| {
      assert keys[..n] == keys;
    } else {
      var front := keys[..|keys| - 1];
      assert front[..n] == keys[..n] && keys == front + [keys[|keys| - 1]];
      RefreshPrefix(probes, merge, front, n);
      RefreshStep(probes, merge, front, keys[|keys| - 1]);
    }
  }

  /** Skips the keys without a result. */
  lemma {:induction false} NextResult(c: Channel, protocols: seq<bool>, fits: seq<string> -> bool, probes: seq<Probe>,
                                      merge: bool, keys: seq<ApiKey>, n: nat, m: map<int, Scope>) returns (k: nat)
    requires n <= |keys| && FetchedScopes(c, protocols, fits, probes, merge, keys[..n]) == Some(m)
    requires |RefreshSteps(probes, merge, keys[..n])| < |RefreshSteps(probes, merge, keys)|
    ensures n <= k < |keys| && Refresher(probes, merge, keys[k]).Some?
    ensures RefreshSteps(probes, merge, keys[..k]) == RefreshSteps(probes, merge, keys[..n])
    ensures FetchedScopes(c, protocols, fits, probes, merge, keys[..k]) == Some(m)
    decreases |keys| - n
  {
    hide RefreshSteps, Refresher, DiscoveredScope, TrimSpace;
    assert keys[..|keys|] == keys;
    k := n;
    if Refresher(probes, merge, keys[n]).None? {
      assert keys[..n + 1] == keys[..n] + [keys[n]] && keys[..n + 1][..n] == keys[..n];
      RefreshStep(probes, merge, keys[..n], keys[n]);
      k := NextResult(c, protocols, fits, probes, merge, keys, n + 1, m);
    }
  }

  lemma RestUnrefreshed(c: Channel, protocols: seq<bool>, fits: seq<string> -> bool, probes: seq<Probe>, merge: bool,
                        keys: seq<ApiKey>, results: seq<Probe>, n: nat, m: map<int, Scope>)
    requires Progress(c, protocols, fits, probes, merge, keys, results, n, |results|, m)
    ensures FetchedScopes(c, protocols, fits, probes, merge, keys) == Some(m)
    decreases |keys| - n
  {
    hide RefreshSteps, Refresher, DiscoveredScope, TrimSpace;
    if n == |keys| {
      assert keys[..n] == keys;
    } else {
      assert keys[..n + 1] == keys[..n] + [keys[n]] && keys[..n + 1][..n] == keys[..n];
      RefreshStep(probes, merge, keys[..n], keys[n]);
      RefreshPrefix(probes, merge, keys, n + 1);
      RestUnrefreshed(c, protocols, fits, probes, merge, keys, results, n + 1, m);
    }
  }

  lemma {:induction false} TooLong(c: Channel, protocols: seq<bool>, fits: seq<string> -> bool, probes: seq<Probe>,
                                   merge: bool, keys: seq<ApiKey>, n: nat)
    requires n <= |keys| && FetchedScopes(c, protocols, fits, probes, merge, keys[..n]).None?
    ensures FetchedScopes(c, protocols, fits, probes, merge, keys).None?
    decreases |keys| - n
  {
    hide Refreshes, DiscoveredScope;
    if n == |keys| {
      assert keys[..n] == keys;
    } else {
      assert keys[..n + 1][..n] == keys[..n];
      TooLong(c, protocols, fits, probes, merge, keys, n + 1);
    }
  }

  /** Drops the results of keys whose scope did not come from discovery. */
  method OnlyDiscovered(keys: seq<ApiKey>, probes: seq<Probe>, merge: bool, bound: seq<Probe>)
    returns (kept: seq<Probe>)
    requires DistinctIndexes(keys) && bound == FilterMap((k: ApiKey) => Bound(probes, k), keys)
    ensures kept == RefreshSteps(probes, merge, keys)
  {
    hide FilterMap, Bound;
    if !merge {
      AllRefresh(probes, keys);
      return bound;
    }
    var byIndex := KeysByIndex(keys);
    BoundKeys(probes, keys);
    ghost var auto := (p: Probe) => p.index in byIndex && byIndex[p.index].scope.auto;
    assert Filter(auto, []) == [] by { NothingFiltered(auto); }
    kept := [];
    for i := 0 to |bound|
      invariant kept == Filter(auto, bound[..i])
    {
      hide Filter;
      assert bound[..i + 1] == bound[..i] + [bound[i]];
      FilterStep(auto, bound[..i], bound[i]);
      assert bound[i] in bound;
      if byIndex[bound[i].index].scope.auto {
        kept := kept + [bound[i]];
      }
    }
    assert bound[..|bound|] == bound;
    FilteredRefresh(probes, keys, byIndex, |keys|);
    assert keys[..|keys|] == keys;
  }

  lemma {:induction false} AllRefresh(probes: seq<Probe>, keys: seq<ApiKey>)
    ensures FilterMap((k: ApiKey) => Bound(probes, k), keys) == RefreshSteps(probes, false, keys)
  {
    hide Bound;
    if keys != [] { AllRefresh(probes, keys[..|keys| - 1]); }
  }

  lemma BoundKeys(probes: seq<Probe>, keys: seq<ApiKey>)
    ensures forall p :: p in FilterMap((k: ApiKey) => Bound(probes, k), keys) ==>
        exists i :: 0 <= i < |keys| && keys[i].index == p.index
  {
    hide FilterMap, LastProbe;
    FilterMapMembers((k: ApiKey) => Bound(probes, k), keys);
    forall p | p in FilterMap((k: ApiKey) => Bound(probes, k), keys)
      ensures exists i :: 0 <= i < |keys| && keys[i].index == p.index {
      var k :| k in keys && Bound(probes, k) == Some(p);
      var i :| 0 <= i < |keys| && keys[i] == k;
      assert keys[i].index == p.index;
    }
  }

  lemma {:induction false} FilteredRefresh(probes: seq<Probe>, keys: seq<ApiKey>, byIndex: map<int, ApiKey>, n: nat)
    requires n <= |keys|
    requires forall i :: 0 <= i < |keys| ==> keys[i].index in byIndex && byIndex[keys[i].index] == keys[i]
    ensures Filter((p: Probe) => p.index in byIndex && byIndex[p.index].scope.auto,
                   FilterMap((k: ApiKey) => Bound(probes, k), keys[..n])) == RefreshSteps(probes, true, keys[..n])
    decreases n
  {
    hide FilterMap, LastProbe, RefreshSteps, Filter;
    var auto := (p: Probe) => p.index in byIndex && byIndex[p.index].scope.auto;
    var bind := (k: ApiKey) => Bound(probes, k);
    if n == 0 {
      NothingMapped(bind);
      NothingFiltered(auto);
      RefreshNothing(probes, true);
      assert keys[..0] == [];
    } else {
      FilteredRefresh(probes, keys, byIndex, n - 1);
      var front, key := keys[..n - 1], keys[n - 1];
      assert keys[..n] == front + [key];
      FilterMapStep(bind, front, key);
      RefreshStep(probes, true, front, key);
      if bind(key).Some? { FilterStep(auto, FilterMap(bind, front), bind(key).value); }
    }
  }

  method DropRefreshed(updates: map<int, Scope>, results: seq<Probe>) returns (kept: map<int, Scope>)
    ensures forall n :: n in kept <==> n in updates && forall i :: 0 <= i < |results| && !Failed(results[i]) ==>
        results[i].index != n
    ensures forall n :: n in kept ==> kept[n] == updates[n]
  {
    hide Failed;
    kept := updates;
    for j := 0 to |results|
      invariant forall n :: n in kept <==> n in updates && forall i :: 0 <= i < j && !Failed(results[i]) ==>
          results[i].index != n
      invariant forall n :: n in kept ==> kept[n] == updates[n]
    {
      if !Failed(results[j]) {
        kept := kept - {results[j].index};
      }
    }
  }

  /** Every key ends with its discovered scope when its own probe refreshes it, else with its renamed one. */
  method RefreshKeyScopes(previous: Channel, current: Channel, o: Options, protocols: seq<bool>,
                          fits: seq<string> -> bool,
                          probes: seq<Probe>, merge: bool, keys: seq<ApiKey>)
    returns (updates: Option<map<int, Scope>>)
    requires DistinctIndexes(keys)
    ensures updates.None? <==> FetchedScopes(current, protocols, fits, probes, merge, keys).None?
    ensures updates.Some? ==> forall i :: 0 <= i < |keys| ==>
              ScopeOf(updates.value, keys[i]) == FinalScope(previous, current, o, protocols, probes, merge, keys[i])
    ensures updates.Some? ==> forall n :: n in updates.value ==> exists i :: 0 <= i < |keys| && keys[i].index == n
  {
    hide ScopeUpdates, RefreshSteps, FetchedScopes, DiscoveredScope, ScopeAfter, Refresher, Failed, FilterMap, Bound;
    var bound := BindKeyModels(keys, probes);
    var renamed := RemapNormalizedApiKeyScopes(previous, current, o, keys);
    UpdatesPerKey(previous, current, o, keys);
    var results := OnlyDiscovered(keys, probes, merge, bound);
    var kept := DropRefreshed(renamed, results);
    var fetched := BuildFetchedScopes(current, protocols, fits, probes, merge, keys, results);
    if fetched.None? {
      return None;
    }
    updates := Some(kept + fetched.value);
    FetchedPerKey(current, protocols, fits, probes, merge, keys);
    forall i | 0 <= i < |keys|
      ensures ScopeOf(updates.value, keys[i]) == FinalScope(previous, current, o, protocols, probes, merge, keys[i])
    {
      ResultOf(probes, merge, keys, i);
      assert ScopeOf(renamed, keys[i]) == RenamedScope(previous, current, o, keys[i].scope);
    }
  }

  lemma ResultOf(probes: seq<Probe>, merge: bool, keys: seq<ApiKey>, i: nat)
    requires DistinctIndexes(keys) && i < |keys|
    ensures var results := RefreshSteps(probes, merge, keys);
      (exists j :: 0 <= j < |results| && !Failed(results[j]) && results[j].index == keys[i].index)
      <==> Refreshes(probes, merge, keys[i])
  {
    hide FilterMap, Refresher, Failed;
    var results := RefreshSteps(probes, merge, keys);
    FilterMapMembers((k: ApiKey) => Refresher(probes, merge, k), keys);
    if Refreshes(probes, merge, keys[i]) {
      var p := Refresher(probes, merge, keys[i]).value;
      RefresherIndex(probes, merge, keys[i]);
      assert keys[i] in keys && p in results;
      var j :| 0 <= j < |results| && results[j] == p;
    }
    forall j | 0 <= j < |results| && !Failed(results[j]) && results[j].index == keys[i].index
      ensures Refreshes(probes, merge, keys[i])
    {
      assert results[j] in results;
      var k :| k in keys && Refresher(probes, merge, k) == Some(results[j]);
      RefresherIndex(probes, merge, k);
      var h :| 0 <= h < |keys| && keys[h] == k;
      assert h == i;
    }
  }

  function ProbeScope(c: Channel, protocols: seq<bool>, probes: seq<Probe>, merge: bool, key: ApiKey): Scope {
    if Refreshes(probes, merge, key) then
      DiscoveredScope(c, protocols, Refresher(probes, merge, key).value.models, key.scope)
    else key.scope
  }

  lemma NoScopes(c: Channel, protocols: seq<bool>, fits: seq<string> -> bool, probes: seq<Probe>, merge: bool)
    ensures FetchedScopes(c, protocols, fits, probes, merge, []) == Some(map[])
  {
  }

  /** The last key writes its own scope, when its probe changes it, and nothing else. */
  lemma FetchedStep(c: Channel, protocols: seq<bool>, fits: seq<string> -> bool, probes: seq<Probe>, merge: bool,
                    keys: seq<ApiKey>)
    requires keys != [] && FetchedScopes(c, protocols, fits, probes, merge, keys).Some?
    ensures var before, last := FetchedScopes(c, protocols, fits, probes, merge, keys[..|keys| - 1]), keys[|keys| - 1];
            var scope := ProbeScope(c, protocols, probes, merge, last);
      && before.Some?
      && (scope != last.scope ==> Refreshes(probes, merge, last))
      && FetchedScopes(c, protocols, fits, probes, merge, keys).value ==
         if scope == last.scope then before.value else before.value[last.index := scope]
  {
    hide DiscoveredScope, Refresher, Failed, Refreshes;
  }

  lemma {:induction false} FetchedPerKey(c: Channel, protocols: seq<bool>, fits: seq<string> -> bool,
                                         probes: seq<Probe>, merge: bool, keys: seq<ApiKey>)
    requires DistinctIndexes(keys) && FetchedScopes(c, protocols, fits, probes, merge, keys).Some?
    ensures var m := FetchedScopes(c, protocols, fits, probes, merge, keys).value;
      && (forall n :: n in m ==> exists i :: 0 <= i < |keys| && keys[i].index == n)
      && (forall i :: 0 <= i < |keys| ==> ScopeOf(m, keys[i]) == ProbeScope(c, protocols, probes, merge, keys[i]))
      && (forall i :: 0 <= i < |keys| && keys[i].index in m ==> Refreshes(probes, merge, keys[i]))
    decreases |keys|
  {
    hide DiscoveredScope, Refreshes, ProbeScope, FetchedScopes;
    if keys == [] {
      assert FetchedScopes(c, protocols, fits, probes, merge, keys) == Some(map[]) by {
        NoScopes(c, protocols, fits, probes, merge);
      }
    } else {
      var front, last := keys[..|keys| - 1], keys[|keys| - 1];
      FetchedStep(c, protocols, fits, probes, merge, keys);
      FetchedPerKey(c, protocols, fits, probes, merge, front);
      var before := FetchedScopes(c, protocols, fits, probes, merge, front).value;
      var m := FetchedScopes(c, protocols, fits, probes, merge, keys).value;
      assert last.index !in before by {
        forall i | 0 <= i < |front| ensures front[i].index != last.index { assert front[i] == keys[i]; }
      }
      assert forall i :: 0 <= i < |front| ==> keys[i] == front[i];
      forall n | n in m ensures exists i :: 0 <= i < |keys| && keys[i].index == n {
        if n in before {
          var i :| 0 <= i < |front| && front[i].index == n;
          assert keys[i].index == n;
        } else {
          assert keys[|keys| - 1].index == n;
        }
      }
    }
  }

  // ---- key safety ----------------------------------------------------------------------------

  /** A refresh never turns a restricted key into an unrestricted one; what it writes as empty is
      marked so and disabled, and a manual disable stays. */
  lemma RefreshedKeySafety(previous: Channel, current: Channel, o: Options, protocols: seq<bool>, probes: seq<Probe>,
                           merge: bool, key: ApiKey)
    ensures var after := FinalScope(previous, current, o, protocols, probes, merge, key);
      && (Restricted(key.scope) ==> Restricted(after))
      && (after != key.scope ==> (after.empty <==> after.allowed == []) && (after.empty ==> after.disabled))
      && (key.scope.disabled && !key.scope.empty ==> after.disabled)
  {
    hide RemapScope, TableFound, Refresher, Failed;
    if RemapScope(previous, current, o, key.scope).Some? {
      RemappedScopeMarks(previous, current, o, key.scope);
    }
  }
}
