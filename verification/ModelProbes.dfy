/** Replacement refresh when some keys could not be probed: what only they may serve is retained, and
    the refresh is refused when a retained model would end up at other upstreams. */
module ModelProbes {
  import opened Names
  import opened ModelTable
  import opened Seqs
  import opened ModelSave
  import opened ModelVariants
  import opened ModelReplace
  import opened ModelRefresh

  /** One key's discovery result, bound to the key row it was made with. */
  datatype Probe = Probe(index: int, id: int, apiKey: string, error: string, models: Table)

  predicate Failed(p: Probe) {
    TrimSpace(p.error) != ""
  }

  predicate FailedIndex(probes: seq<Probe>, index: int) {
    exists p :: p in probes && Failed(p) && p.index == index
  }

  /** A key whose probe failed and that may still serve models. */
  predicate Unprobed(probes: seq<Probe>, key: ApiKey) {
    !key.scope.empty && FailedIndex(probes, key.index)
  }

  // ---- candidates ----------------------------------------------------------------------------

  function AllowedKey(name: string): string {
    Lower(TrimSpace(Routing(name)))
  }

  predicate KeepsAll(keys: seq<ApiKey>, probes: seq<Probe>) {
    exists k :: k in keys && Unprobed(probes, k) && k.scope.allowed == []
  }

  predicate NamedBy(probes: seq<Probe>, key: ApiKey, name: string) {
    Unprobed(probes, key) && exists a :: a in key.scope.allowed && AllowedKey(a) == name
  }

  predicate AllowedName(keys: seq<ApiKey>, probes: seq<Probe>, name: string) {
    exists k :: k in keys && NamedBy(probes, k, name)
  }

  predicate Keeps(keys: seq<ApiKey>, probes: seq<Probe>, e: ModelEntry) {
    KeepsAll(keys, probes) || AllowedName(keys, probes, Lower(Routing(e.model)))
  }

  function Candidates(keys: seq<ApiKey>, table: Table, probes: seq<Probe>): Table {
    Filter(e => Keeps(keys, probes, e), table)
  }

  /** The rows whose identity neither `fetched` nor an earlier retained row has. */
  function Unlisted(rows: Table, fetched: Table): Table {
    if rows == [] then []
    else
      var before, e := Unlisted(rows[..|rows| - 1], fetched), rows[|rows| - 1];
      if HasIdentity(fetched, e.Identity()) || HasIdentity(before, e.Identity()) then before else before + [e]
  }

  function Retained(keys: seq<ApiKey>, table: Table, fetched: Table, probes: seq<Probe>, o: Options): Table {
    Unlisted(RefreshedTable(Candidates(keys, table, probes), o), fetched)
  }

  // ---- the conflict check --------------------------------------------------------------------

  /** The routing names of the enabled rows. */
  function ModelNames(t: Table): seq<string> {
    if t == [] then []
    else
      var names, e := ModelNames(t[..|t| - 1]), t[|t| - 1];
      if e.disabled || Routing(e.model) in names then names else names + [Routing(e.model)]
  }

  /** The upstreams the enabled rows for a name reach. */
  function Upstreams(t: Table, name: string): set<string> {
    set row | row in EnabledRows(t, name) :: ResolveActual(t, name, row)
  }

  /** The name a model has after the refresh: groups keep theirs, single rows are normalised. */
  function AfterName(table: Table, o: Options, name: string): string {
    if CountGroup(table, Lower(name)) > 1 then name else Alias(name, o)
  }

  predicate Moved(table: Table, final: Table, o: Options, name: string) {
    Upstreams(table, name) != Upstreams(final, AfterName(table, o, name))
  }

  function FirstMoved(table: Table, final: Table, o: Options, names: seq<string>): Option<string>
    decreases |names|
  {
    if names == [] then None
    else if Moved(table, final, o, names[0]) then Some(AfterName(table, o, names[0]))
    else FirstMoved(table, final, o, names[1..])
  }

  datatype Outcome = Retain(rows: Table) | Conflict(name: string)

  predicate NoneFailed(probes: seq<Probe>) {
    forall p :: p in probes ==> !Failed(p)
  }

  /** What is added to the discovered rows, or the model that stops the replacement. */
  function Retention(keys: seq<ApiKey>, table: Table, fetched: Table, probes: seq<Probe>, o: Options): Outcome {
    if NoneFailed(probes) then Retain([])
    else
      var rows := Retained(keys, table, fetched, probes, o);
      var moved := FirstMoved(table, Replaced(table, fetched + rows, o), o,
                              ModelNames(Candidates(keys, table, probes)));
      if moved.Some? then Conflict(moved.value) else Retain(rows)
  }

  // ---- the loops -----------------------------------------------------------------------------

  method FailedIndexes(probes: seq<Probe>) returns (failed: set<int>)
    ensures forall n :: n in failed <==> FailedIndex(probes, n)
    ensures failed == {} <==> NoneFailed(probes)
  {
    hide TrimSpace;
    failed := {};
    for i := 0 to |probes|
      invariant forall n :: n in failed <==> FailedIndex(probes[..i], n)
    {
      assert probes[..i + 1] == probes[..i] + [probes[i]];
      ghost var seen := failed;
      if TrimSpace(probes[i].error) != "" {
        failed := failed + {probes[i].index};
      }
      forall n ensures FailedIndex(probes[..i + 1], n) <==>
                       FailedIndex(probes[..i], n) || (Failed(probes[i]) && probes[i].index == n) {
        if FailedIndex(probes[..i], n) {
          var p :| p in probes[..i] && Failed(p) && p.index == n;
          assert p in probes[..i + 1];
        }
        assert probes[i] in probes[..i + 1];
      }
    }
    assert probes[..|probes|] == probes;
    EmptyMeansNoneFailed(probes, failed);
  }

  lemma EmptyMeansNoneFailed(probes: seq<Probe>, failed: set<int>)
    requires forall n :: n in failed <==> FailedIndex(probes, n)
    ensures failed == {} <==> NoneFailed(probes)
  {
    hide Failed;
    forall p | p in probes && Failed(p) ensures p.index in failed {
      assert FailedIndex(probes, p.index);
    }
    if NoneFailed(probes) {
      forall n ensures n !in failed { assert !FailedIndex(probes, n); }
      assert |failed| == 0;
    }
  }

  lemma AllowedStep(keys: seq<ApiKey>, probes: seq<Probe>, key: ApiKey, name: string)
    ensures AllowedName(keys + [key], probes, name) <==> AllowedName(keys, probes, name) || NamedBy(probes, key, name)
    ensures KeepsAll(keys + [key], probes) <==>
            KeepsAll(keys, probes) || (Unprobed(probes, key) && key.scope.allowed == [])
  {
    hide Unprobed, NamedBy;
    assert key in keys + [key];
    assert forall k :: k in keys ==> k in keys + [key];
  }

  method KeptNames(keys: seq<ApiKey>, probes: seq<Probe>, failed: set<int>)
    returns (allowed: set<string>, keepAll: bool)
    requires forall n :: n in failed <==> FailedIndex(probes, n)
    ensures keepAll == KeepsAll(keys, probes)
    ensures !keepAll ==> forall n :: n in allowed <==> AllowedName(keys, probes, n)
  {
    hide FailedIndex, Lower, TrimSpace, Routing, AllowedName, KeepsAll;
    allowed, keepAll := {}, false;
    assert forall n :: !AllowedName([], probes, n) by { NobodyKeeps(probes); }
    NobodyKeeps(probes);
    var i := 0;
    while i < |keys|
      invariant 0 <= i <= |keys|
      invariant !KeepsAll(keys[..i], probes)
      invariant forall n :: n in allowed <==> AllowedName(keys[..i], probes, n)
    {
      assert keys[..i + 1] == keys[..i] + [keys[i]];
      forall n { AllowedStep(keys[..i], probes, keys[i], n); }
      AllowedStep(keys[..i], probes, keys[i], "");
      var key := keys[i];
      i := i + 1;
      if key.scope.empty || key.index !in failed {
        continue;
      }
      if key.scope.allowed == [] {
        keepAll := true;
        assert keys == keys[..i] + keys[i..];
        KeepsAllExtends(keys[..i], keys[i..], probes);
        return;
      }
      ghost var before := allowed;
      for k := 0 to |key.scope.allowed|
        invariant forall n :: n in allowed <==>
          n in before || exists j :: 0 <= j < k && AllowedKey(key.scope.allowed[j]) == n
      {
        allowed := allowed + {Lower(TrimSpace(Routing(key.scope.allowed[k])))};
      }
    }
    assert keys[..|keys|] == keys;
  }

  lemma NobodyKeeps(probes: seq<Probe>)
    ensures !KeepsAll([], probes) && forall n :: !AllowedName([], probes, n)
  {
  }

  lemma KeepsAllExtends(keys: seq<ApiKey>, more: seq<ApiKey>, probes: seq<Probe>)
    requires KeepsAll(keys, probes)
    ensures KeepsAll(keys + more, probes)
  {
    hide Unprobed;
    var k :| k in keys && Unprobed(probes, k) && k.scope.allowed == [];
    assert k in keys + more;
  }

  method CollectCandidates(keys: seq<ApiKey>, table: Table, probes: seq<Probe>, failed: set<int>)
    returns (candidates: Table)
    requires forall n :: n in failed <==> FailedIndex(probes, n)
    ensures candidates == Candidates(keys, table, probes)
  {
    hide FailedIndex, Lower, Routing, AllowedName, KeepsAll, Filter;
    var allowed, keepAll := KeptNames(keys, probes, failed);
    ghost var keeps := (e: ModelEntry) => Keeps(keys, probes, e);
    candidates := [];
    assert Filter(keeps, []) == [] by { NothingFiltered(keeps); }
    for i := 0 to |table|
      invariant candidates == Filter(keeps, table[..i])
    {
      assert table[..i + 1] == table[..i] + [table[i]];
      FilterStep(keeps, table[..i], table[i]);
      if keepAll || Lower(Routing(table[i].model)) in allowed {
        candidates := candidates + [table[i]];
      }
    }
    assert table[..|table|] == table;
  }

  lemma NothingFiltered<A>(p: A -> bool)
    ensures Filter(p, []) == []
  {
  }

  method RetainRows(rows: Table, fetched: array<ModelEntry>) returns (retained: Table)
    ensures retained == Unlisted(rows, fetched[..])
  {
    hide ModelEntry.Identity, HasIdentity;
    var seen: set<RowId> := {};
    NothingThere();
    for i := 0 to fetched.Length
      invariant forall id :: id in seen <==> HasIdentity(fetched[..i], id)
    {
      assert fetched[..i + 1] == fetched[..i] + [fetched[i]];
      RowAdded(fetched[..i], fetched[i]);
      seen := seen + {fetched[i].Identity()};
    }
    assert fetched[..fetched.Length] == fetched[..];
    retained := [];
    for i := 0 to |rows|
      invariant retained == Unlisted(rows[..i], fetched[..])
      invariant forall id :: id in seen <==> HasIdentity(fetched[..], id) || HasIdentity(retained, id)
    {
      assert rows[..i + 1][..i] == rows[..i];
      var id := rows[i].Identity();
      if id in seen {
        continue;
      }
      RowAdded(retained, rows[i]);
      seen := seen + {id};
      retained := retained + [rows[i]];
    }
    assert rows[..|rows|] == rows;
  }

  method CollectModelNames(t: Table) returns (names: seq<string>)
    ensures names == ModelNames(t)
  {
    hide Routing;
    names := [];
    for i := 0 to |t|
      invariant names == ModelNames(t[..i])
    {
      assert t[..i + 1][..i] == t[..i];
      if t[i].disabled {
        continue;
      }
      var name := Routing(t[i].model);
      if name in names {
        continue;
      }
      names := names + [name];
    }
    assert t[..|t|] == t;
  }

  method CollectUpstreams(t: Table, name: string) returns (actuals: set<string>)
    ensures actuals == Upstreams(t, name)
  {
    hide EnabledRows, ResolveActual;
    var rows := EnabledRows(t, name);
    actuals := {};
    for i := 0 to |rows|
      invariant actuals == set row | row in rows[..i] :: ResolveActual(t, name, row)
    {
      assert rows[..i + 1] == rows[..i] + [rows[i]];
      actuals := actuals + {ResolveActual(t, name, rows[i])};
    }
    assert rows[..|rows|] == rows;
  }

  method FindMoved(table: Table, final: Table, o: Options, names: seq<string>) returns (moved: Option<string>)
    ensures moved == FirstMoved(table, final, o, names)
  {
    hide Lower, Alias, Upstreams, CountGroup;
    var counts := CountGroups(table);
    moved := None;
    for i := 0 to |names|
      invariant FirstMoved(table, final, o, names) == FirstMoved(table, final, o, names[i..])
    {
      assert names[i..][0] == names[i] && names[i..][1..] == names[i + 1..];
      var name := names[i];
      var alias := Alias(name, o);
      var key := Lower(name);
      assert (if key in counts then counts[key] else 0) == CountGroup(table, key);
      if key in counts && counts[key] > 1 {
        alias := name;
      }
      var before := CollectUpstreams(table, name);
      var after := CollectUpstreams(final, alias);
      if before != after {
        return Some(alias);
      }
    }
  }

  /** The final table is worked out on a copy; neither the channel nor the discovered rows change. */
  method RetainedFromFailedProbes(keys: seq<ApiKey>, table: Table, fetched: array<ModelEntry>, probes: seq<Probe>,
                                  o: Options)
    returns (outcome: Outcome)
    ensures outcome == Retention(keys, table, fetched[..], probes, o)
  {
    hide Replaced, Retained, RefreshedTable, Unlisted, Candidates, NoneFailed, FirstMoved;
    var failed := FailedIndexes(probes);
    if failed == {} {
      return Retain([]);
    }
    var candidates := CollectCandidates(keys, table, probes, failed);
    var normalized := NormalizeExistingForRefresh(candidates, o);
    var retained := RetainRows(normalized, fetched);
    assert retained == Retained(keys, table, fetched[..], probes, o) by {
      RetainedIs(keys, table, fetched[..], probes, o);
    }
    var final := new Config(table);
    var combined := Joined(fetched[..], retained);
    var _, _ := ReplaceModelEntries(final, combined, o);
    var names := CollectModelNames(candidates);
    var moved := FindMoved(table, final.entries, o, names);
    outcome := if moved.Some? then Conflict(moved.value) else Retain(retained);
  }

  lemma RetainedIs(keys: seq<ApiKey>, table: Table, fetched: Table, probes: seq<Probe>, o: Options)
    ensures Retained(keys, table, fetched, probes, o) ==
        Unlisted(RefreshedTable(Candidates(keys, table, probes), o), fetched)
  {
  }

  /** A fresh copy of the discovered rows followed by the retained ones. */
  method Joined(rows: Table, more: Table) returns (a: array<ModelEntry>)
    ensures fresh(a) && a[..] == rows + more
  {
    var all := rows + more;
    a := new ModelEntry[|all|](i requires 0 <= i < |all| => all[i]);
  }

  // ---- the refresh ---------------------------------------------------------------------------

  /** The table after a replacement refresh, or None when it is refused. */
  function ReplacedTable(keys: seq<ApiKey>, table: Table, fetched: Table, probes: seq<Probe>,
                         o: Options): Option<Table> {
    match Retention(keys, table, fetched, probes, o)
    case Conflict(_) => None
    case Retain(rows) => Some(Replaced(table, fetched + rows, o))
  }

  method ApplyReplace(cfg: Config, keys: seq<ApiKey>, fetched: Table, probes: seq<Probe>, o: Options)
    returns (ok: bool, removed: nat, changed: bool)
    modifies cfg
    ensures var after := ReplacedTable(keys, old(cfg.entries), fetched, probes, o);
      && ok == after.Some?
      && cfg.entries == (if ok then after.value else old(cfg.entries))
    ensures ok ==> changed == !SameTable(old(cfg.entries), cfg.entries)
    ensures ok ==> removed == |NameSet(old(cfg.entries)) - NameSet(cfg.entries)|
  {
    hide Retention, Replaced;
    removed, changed := 0, false;
    var replacement := Joined(fetched, []);
    assert replacement[..] == fetched;
    var outcome := RetainedFromFailedProbes(keys, cfg.entries, replacement, probes, o);
    if outcome.Conflict? {
      return false, 0, false;
    }
    replacement := Joined(replacement[..], outcome.rows);
    removed, changed := ReplaceModelEntries(cfg, replacement, o);
    ok := true;
  }

  // ---- routes survive ------------------------------------------------------------------------

  lemma {:induction false} ModelNamesMembers(t: Table)
    ensures forall e :: e in t && !e.disabled ==> Routing(e.model) in ModelNames(t)
  {
    hide Routing;
    if t != [] {
      assert t == t[..|t| - 1] + [t[|t| - 1]];
      ModelNamesMembers(t[..|t| - 1]);
    }
  }

  lemma {:induction false} NoneMoved(table: Table, final: Table, o: Options, names: seq<string>)
    requires FirstMoved(table, final, o, names).None?
    ensures forall n :: n in names ==> !Moved(table, final, o, n)
    decreases |names|
  {
    hide Moved;
    if names != [] {
      assert names == [names[0]] + names[1..];
      NoneMoved(table, final, o, names[1..]);
    }
  }

  lemma {:induction false} SomeMoved(table: Table, final: Table, o: Options, names: seq<string>)
    ensures FirstMoved(table, final, o, names).Some? <==> exists n :: n in names && Moved(table, final, o, n)
    decreases |names|
  {
    hide Moved, AfterName;
    if names != [] {
      assert names == [names[0]] + names[1..];
      SomeMoved(table, final, o, names[1..]);
    }
  }

  /** The replacement would send a model kept for an unprobed key to other upstreams. */
  predicate KeptModelMoves(keys: seq<ApiKey>, table: Table, fetched: Table, probes: seq<Probe>, o: Options) {
    exists n :: n in ModelNames(Candidates(keys, table, probes)) &&
      Moved(table, Replaced(table, fetched + Retained(keys, table, fetched, probes, o), o), o, n)
  }

  /** A replacement is refused exactly when a probe failed and some model kept for it would reach other
      upstreams than before. */
  lemma RefusedExactly(keys: seq<ApiKey>, table: Table, fetched: Table, probes: seq<Probe>, o: Options)
    ensures ReplacedTable(keys, table, fetched, probes, o).None? <==>
        !NoneFailed(probes) && KeptModelMoves(keys, table, fetched, probes, o)
  {
    hide Moved, Replaced, Retained, NoneFailed, Candidates, ModelNames;
    SomeMoved(table, Replaced(table, fetched + Retained(keys, table, fetched, probes, o), o), o,
              ModelNames(Candidates(keys, table, probes)));
  }

  /** When a replacement goes ahead, a model an unprobed key was allowed keeps exactly the enabled
      upstreams it had, under the name it has now. */
  lemma UnprobedRoutesSurvive(keys: seq<ApiKey>, table: Table, fetched: Table, probes: seq<Probe>, o: Options,
                              key: ApiKey, e: ModelEntry)
    requires ReplacedTable(keys, table, fetched, probes, o).Some?
    requires key in keys && Unprobed(probes, key) && (forall a :: a in key.scope.allowed ==> Trimmed(a))
    requires e in table && !e.disabled && AllowsModel(key.scope, e.model) && Routing(e.model) !in {"", "*"}
    ensures var name, after := Routing(e.model), ReplacedTable(keys, table, fetched, probes, o).value;
      Upstreams(after, if CountGroup(table, Lower(name)) > 1 then name else Alias(name, o)) == Upstreams(table, name)
  {
    hide Replaced, Retained, Upstreams, CountGroup, Alias, Lower, Routing, TrimSpace, Filter, FirstMoved, ModelNames;
    FailedSomewhere(probes, key.index);
    assert Keeps(keys, probes, e) by {
      if key.scope.allowed == [] {
        assert KeepsAll(keys, probes);
      } else {
        var a :| a in key.scope.allowed && EqualFold(Routing(a), Routing(e.model));
        assert Trimmed(Routing(a));
        assert AllowedKey(a) == Lower(Routing(e.model));
        assert NamedBy(probes, key, Lower(Routing(e.model)));
      }
    }
    FilterMembers((x: ModelEntry) => Keeps(keys, probes, x), table);
    var candidates := Candidates(keys, table, probes);
    assert e in candidates;
    ModelNamesMembers(candidates);
    var final := Replaced(table, fetched + Retained(keys, table, fetched, probes, o), o);
    NoneMoved(table, final, o, ModelNames(candidates));
    assert !Moved(table, final, o, Routing(e.model));
  }

  lemma FailedSomewhere(probes: seq<Probe>, index: int)
    requires FailedIndex(probes, index)
    ensures !NoneFailed(probes)
  {
  }
}
