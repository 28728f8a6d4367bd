/** Swapping a channel's table for the discovered one, with row state carried over. */
module ModelReplace {
  import opened Names
  import opened ModelTable
  import opened ModelSave
  import opened ModelVariants
  import opened ModelVariantsLaws

  /** The model table of a channel, updated in place. */
  class Config {
    var entries: Table

    constructor (entries: Table)
      ensures this.entries == entries
    {
      this.entries := entries;
    }
  }

  /** The names an old row's state may be found under. */
  function ModelIdentities(name: string, o: Options): seq<string> {
    if name == "" then []
    else
      var normalized := Alias(name, o);
      [Lower(name), Lower(normalized), Lower(Routing(name)), Lower(Routing(normalized))]
  }

  /** The identity a row has once its name is normalised. */
  function NormalizedId(e: ModelEntry, o: Options): RowId {
    e.Identity().(model := Lower(Alias(e.model, o)))
  }

  // ---- specification -------------------------------------------------------------------------

  predicate HidesName(e: ModelEntry, o: Options, name: string) {
    e.disabled && (name in ModelIdentities(e.model, o) || name in ModelIdentities(e.redirect, o))
  }

  predicate DisabledAlias(was: Table, o: Options, name: string) {
    exists e :: e in was && HidesName(e, o, name)
  }

  predicate NamesDisabled(was: Table, o: Options, name: string) {
    exists i :: i in ModelIdentities(name, o) && DisabledAlias(was, o, i)
  }

  predicate HidesRow(e: ModelEntry, o: Options, id: RowId) {
    e.disabled && NormalizedId(e, o) == id
  }

  predicate DisabledRow(was: Table, o: Options, id: RowId) {
    exists e :: e in was && HidesRow(e, o, id)
  }

  /** The price of the last priced old row with this identity. */
  function RowPrice(was: Table, o: Options, id: RowId): Pricing {
    if was == [] then Unpriced
    else
      var e := was[|was| - 1];
      if !e.pricing.Unpriced? && NormalizedId(e, o) == id then e.pricing else RowPrice(was[..|was| - 1], o, id)
  }

  /** The price of the first priced old row known by this name. */
  function NamePrice(was: Table, o: Options, name: string): Pricing {
    if was == [] then Unpriced
    else
      var earlier := NamePrice(was[..|was| - 1], o, name);
      var e := was[|was| - 1];
      if !earlier.Unpriced? then earlier
      else if name in ModelIdentities(e.model, o) then e.pricing else Unpriced
  }

  function FirstPrice(was: Table, o: Options, names: seq<string>): Pricing
    decreases |names|
  {
    if names == [] then Unpriced
    else
      var price := NamePrice(was, o, names[0]);
      if price.Unpriced? then FirstPrice(was, o, names[1..]) else price
  }

  /** Rows of `t` whose normalised name folds to `key`. */
  function AliasCount(t: Table, o: Options, key: string): nat {
    if t == [] then 0
    else AliasCount(t[..|t| - 1], o, key) + if Lower(Alias(t[|t| - 1].model, o)) == key then 1 else 0
  }

  /** Rows of `t` whose normalised name routes under `key`. */
  function RoutingAliasCount(t: Table, o: Options, key: string): nat {
    if t == [] then 0
    else RoutingAliasCount(t[..|t| - 1], o, key) + if Lower(Routing(Alias(t[|t| - 1].model, o))) == key then 1 else 0
  }

  /** Rows of `t` whose name routes under `key`. */
  function RoutingCount(t: Table, key: string): nat {
    if t == [] then 0
    else RoutingCount(t[..|t| - 1], key) + if Lower(Routing(t[|t| - 1].model)) == key then 1 else 0
  }

  /** Old and new rows under one normalised name (or its routing name) correspond one to one. */
  predicate OneToOne(was: Table, fetched: Table, o: Options, e: ModelEntry) {
    var byName, byRouting := Lower(e.model), Lower(Routing(e.model));
    || (AliasCount(was, o, byName) == 1 && CountGroup(fetched, byName) == 1)
    || (RoutingAliasCount(was, o, byRouting) == 1 && RoutingCount(fetched, byRouting) == 1)
  }

  /** A discovered row with the disabled state and the price of the row it replaces. */
  function Carried(was: Table, fetched: Table, o: Options, e: ModelEntry): ModelEntry {
    var oneToOne := OneToOne(was, fetched, o, e);
    var disabled := || e.disabled || DisabledRow(was, o, e.Identity())
                    || (oneToOne && (NamesDisabled(was, o, e.model) || NamesDisabled(was, o, e.redirect)));
    var price := if !e.pricing.Unpriced? then e.pricing else RowPrice(was, o, e.Identity());
    e.(disabled := disabled,
       pricing := if price.Unpriced? && oneToOne then FirstPrice(was, o, ModelIdentities(e.model, o)) else price)
  }

  function CarriedTable(was: Table, fetched: Table, o: Options): (t: Table)
    ensures |t| == |fetched|
  {
    seq(|fetched|, i requires 0 <= i < |fetched| => Carried(was, fetched, o, fetched[i]))
  }

  predicate SamePrice(a: Pricing, b: Pricing) {
    a == b || (a in {Unpriced, BlankPrice} && b in {Unpriced, BlankPrice})
  }

  predicate SameRow(a: ModelEntry, b: ModelEntry) {
    a.(pricing := b.pricing) == b && SamePrice(a.pricing, b.pricing)
  }

  predicate SameTable(a: Table, b: Table) {
    |a| == |b| && forall i :: 0 <= i < |a| ==> SameRow(a[i], b[i])
  }

  /** The table a replacement refresh leaves behind; one that only re-spells "no price" is not written. */
  function Replaced(was: Table, fetched: Table, o: Options): Table {
    var final := Preserve(was, CarriedTable(was, fetched, o));
    if SameTable(was, final) then was else final
  }

  /** The case-folded names of a table. */
  function NameSet(t: Table): set<string> {
    set e | e in t :: e.Group()
  }

  // ---- collecting the old rows' state --------------------------------------------------------

  datatype OldState = OldState(
    hiddenNames: set<string>, hiddenRows: set<RowId>,
    namePrices: map<string, Pricing>, rowPrices: map<RowId, Pricing>,
    aliasCounts: map<string, nat>, routingCounts: map<string, nat>)

  function At<K>(counts: map<K, nat>, key: K): nat {
    if key in counts then counts[key] else 0
  }

  function PriceAt<K>(prices: map<K, Pricing>, key: K): Pricing {
    if key in prices then prices[key] else Unpriced
  }

  ghost predicate Hidden(st: OldState, t: Table, o: Options) {
    && (forall n :: n in st.hiddenNames <==> DisabledAlias(t, o, n))
    && (forall id :: id in st.hiddenRows <==> DisabledRow(t, o, id))
  }

  ghost predicate Priced(st: OldState, t: Table, o: Options) {
    && (forall n :: PriceAt(st.namePrices, n) == NamePrice(t, o, n))
    && (forall n :: n in st.namePrices ==> !st.namePrices[n].Unpriced?)
    && (forall id :: PriceAt(st.rowPrices, id) == RowPrice(t, o, id))
  }

  ghost predicate Counted(st: OldState, t: Table, o: Options) {
    && (forall k :: At(st.aliasCounts, k) == AliasCount(t, o, k))
    && (forall k :: At(st.routingCounts, k) == RoutingAliasCount(t, o, k))
  }

  method RememberPrice(e: ModelEntry, o: Options, prices: map<string, Pricing>) returns (r: map<string, Pricing>)
    requires !e.pricing.Unpriced?
    ensures forall n ::
      PriceAt(r, n) == if n !in prices && n in ModelIdentities(e.model, o) then e.pricing else PriceAt(prices, n)
    ensures forall n :: n in r <==> n in prices || n in ModelIdentities(e.model, o)
  {
    hide ModelIdentities;
    var names := ModelIdentities(e.model, o);
    r := prices;
    for i := 0 to |names|
      invariant forall n :: PriceAt(r, n) == if n !in prices && n in names[..i] then e.pricing else PriceAt(prices, n)
      invariant forall n :: n in r <==> n in prices || n in names[..i]
    {
      assert names[..i + 1] == names[..i] + [names[i]];
      if names[i] !in r {
        r := r[names[i] := e.pricing];
      }
    }
    assert names[..|names|] == names;
  }

  method CollectOldState(was: Table, o: Options) returns (st: OldState)
    ensures Hidden(st, was, o) && Priced(st, was, o) && Counted(st, was, o)
  {
    hide Hidden, Priced, Counted, Lower, Routing, Alias, ModelIdentities, ModelEntry.Identity;
    st := OldState({}, {}, map[], map[], map[], map[]);
    NothingCollected(o);
    for i := 0 to |was|
      invariant Hidden(st, was[..i], o) && Priced(st, was[..i], o) && Counted(st, was[..i], o)
    {
      assert was[..i + 1] == was[..i] + [was[i]];
      var e := was[i];
      var alias := Alias(e.model, o);
      var id := NormalizedId(e, o);
      ghost var seen, before := was[..i], st;
      st := st.(aliasCounts := st.aliasCounts[Lower(alias) := At(st.aliasCounts, Lower(alias)) + 1],
                routingCounts := st.routingCounts[
                  Lower(Routing(alias)) := At(st.routingCounts, Lower(Routing(alias))) + 1]);
      CountedStep(before, st, seen, o, e);
      if !e.pricing.Unpriced? {
        var prices := RememberPrice(e, o, st.namePrices);
        st := st.(rowPrices := st.rowPrices[id := e.pricing], namePrices := prices);
      }
      PricedStep(before, st, seen, o, e);
      if e.disabled {
        st := st.(hiddenRows := st.hiddenRows + {id},
                  hiddenNames := st.hiddenNames + (set n | n in ModelIdentities(e.model, o))
                                 + (set n | n in ModelIdentities(e.redirect, o)));
      }
      HiddenStep(before, st, seen, o, e);
    }
    assert was[..|was|] == was;
  }

  lemma NothingCollected(o: Options)
    ensures var st := OldState({}, {}, map[], map[], map[], map[]);
            Hidden(st, [], o) && Priced(st, [], o) && Counted(st, [], o)
  {
  }

  lemma CountedStep(before: OldState, after: OldState, seen: Table, o: Options, e: ModelEntry)
    requires Counted(before, seen, o)
    requires var name, base := Lower(Alias(e.model, o)), Lower(Routing(Alias(e.model, o)));
             && after.aliasCounts == before.aliasCounts[name := At(before.aliasCounts, name) + 1]
             && after.routingCounts == before.routingCounts[base := At(before.routingCounts, base) + 1]
    ensures forall st: OldState :: st.aliasCounts == after.aliasCounts && st.routingCounts == after.routingCounts
                         ==> Counted(st, seen + [e], o)
  {
    hide Lower, Routing, Alias;
    assert (seen + [e])[..|seen|] == seen;
    forall k
      ensures AliasCount(seen + [e], o, k) == AliasCount(seen, o, k) + if Lower(Alias(e.model, o)) == k then 1 else 0 {}
    forall k ensures RoutingAliasCount(seen + [e], o, k) ==
                     RoutingAliasCount(seen, o, k) + if Lower(Routing(Alias(e.model, o))) == k then 1 else 0 {}
  }

  lemma PricedStep(before: OldState, after: OldState, seen: Table, o: Options, e: ModelEntry)
    requires Priced(before, seen, o)
    requires if e.pricing.Unpriced? then after.namePrices == before.namePrices && after.rowPrices == before.rowPrices
             else
               && after.rowPrices == before.rowPrices[NormalizedId(e, o) := e.pricing]
               && (forall n :: PriceAt(after.namePrices, n) ==
                     if n !in before.namePrices && n in ModelIdentities(e.model, o) then e.pricing
                     else PriceAt(before.namePrices, n))
               && (forall n :: n in after.namePrices <==> n in before.namePrices || n in ModelIdentities(e.model, o))
    ensures forall st: OldState :: st.namePrices == after.namePrices && st.rowPrices == after.rowPrices ==>
        Priced(st, seen + [e], o)
  {
    hide NormalizedId, ModelIdentities;
    assert (seen + [e])[..|seen|] == seen;
    forall n ensures PriceAt(after.namePrices, n) == NamePrice(seen + [e], o, n) {
      assert PriceAt(before.namePrices, n) == NamePrice(seen, o, n);
    }
    forall id ensures PriceAt(after.rowPrices, id) == RowPrice(seen + [e], o, id) {
      assert PriceAt(before.rowPrices, id) == RowPrice(seen, o, id);
    }
    forall n | n in after.namePrices ensures !after.namePrices[n].Unpriced? {
      assert PriceAt(after.namePrices, n) == after.namePrices[n];
      if n in before.namePrices { assert PriceAt(before.namePrices, n) == before.namePrices[n]; }
    }
  }

  lemma HiddenStep(before: OldState, after: OldState, seen: Table, o: Options, e: ModelEntry)
    requires Hidden(before, seen, o)
    requires if !e.disabled then after.hiddenNames == before.hiddenNames && after.hiddenRows == before.hiddenRows
             else
               && after.hiddenRows == before.hiddenRows + {NormalizedId(e, o)}
               && after.hiddenNames == before.hiddenNames + (set n | n in ModelIdentities(e.model, o))
                                       + (set n | n in ModelIdentities(e.redirect, o))
    ensures Hidden(after, seen + [e], o)
  {
    hide NormalizedId, ModelIdentities;
    assert e in seen + [e];
    forall n ensures DisabledAlias(seen + [e], o, n) <==> DisabledAlias(seen, o, n) || HidesName(e, o, n) {}
    forall id ensures DisabledRow(seen + [e], o, id) <==> DisabledRow(seen, o, id) || HidesRow(e, o, id) {}
  }

  // ---- replacing -----------------------------------------------------------------------------

  method CountFetched(fetched: array<ModelEntry>) returns (groups: map<string, nat>, routes: map<string, nat>)
    ensures forall k :: At(groups, k) == CountGroup(fetched[..], k)
    ensures forall k :: At(routes, k) == RoutingCount(fetched[..], k)
  {
    hide Lower, Routing;
    groups, routes := map[], map[];
    forall k ensures CountGroup([], k) == 0 == RoutingCount([], k) {}
    for i := 0 to fetched.Length
      invariant forall k :: At(groups, k) == CountGroup(fetched[..i], k)
      invariant forall k :: At(routes, k) == RoutingCount(fetched[..i], k)
    {
      assert fetched[..i + 1][..i] == fetched[..i];
      var e := fetched[i];
      var name, base := Lower(e.model), Lower(Routing(e.model));
      forall k ensures CountGroup(fetched[..i + 1], k) == CountGroup(fetched[..i], k) + if name == k then 1 else 0 {}
      forall k
        ensures RoutingCount(fetched[..i + 1], k) == RoutingCount(fetched[..i], k) + if base == k then 1 else 0 {}
      groups := groups[name := At(groups, name) + 1];
      routes := routes[base := At(routes, base) + 1];
    }
    assert fetched[..fetched.Length] == fetched[..];
  }

  method LookupPrice(was: Table, o: Options, st: OldState, name: string) returns (price: Pricing)
    requires Priced(st, was, o)
    ensures price == FirstPrice(was, o, ModelIdentities(name, o))
  {
    hide ModelIdentities;
    var names := ModelIdentities(name, o);
    price := Unpriced;
    for i := 0 to |names|
      invariant price.Unpriced? && FirstPrice(was, o, names) == FirstPrice(was, o, names[i..])
    {
      assert PriceAt(st.namePrices, names[i]) == NamePrice(was, o, names[i]);
      assert names[i..][0] == names[i] && names[i..][1..] == names[i + 1..];
      if names[i] in st.namePrices {
        price := st.namePrices[names[i]];
        break;
      }
    }
  }

  /** One discovered row with its carried state. */
  method CarryRow(was: Table, ghost fetched: Table, o: Options, st: OldState,
                  groups: map<string, nat>, routes: map<string, nat>, e: ModelEntry)
    returns (r: ModelEntry)
    requires Hidden(st, was, o) && Priced(st, was, o) && Counted(st, was, o)
    requires forall k :: At(groups, k) == CountGroup(fetched, k)
    requires forall k :: At(routes, k) == RoutingCount(fetched, k)
    ensures r == Carried(was, fetched, o, e)
  {
    hide Lower, Routing, ModelIdentities, ModelEntry.Identity, DisabledAlias, DisabledRow;
    var id := e.Identity();
    var disabled := id in st.hiddenRows;
    var byName, byRouting := Lower(e.model), Lower(Routing(e.model));
    var oneToOne := || (At(st.aliasCounts, byName) == 1 && At(groups, byName) == 1)
                    || (At(st.routingCounts, byRouting) == 1 && At(routes, byRouting) == 1);
    assert oneToOne == OneToOne(was, fetched, o, e);
    if oneToOne {
      disabled := || disabled
                  || (exists i :: i in ModelIdentities(e.model, o) && i in st.hiddenNames)
                  || (exists i :: i in ModelIdentities(e.redirect, o) && i in st.hiddenNames);
    }
    r := e.(disabled := e.disabled || disabled);
    if r.pricing.Unpriced? {
      r := r.(pricing := PriceAt(st.rowPrices, id));
      if r.pricing.Unpriced? && oneToOne {
        var price := LookupPrice(was, o, st, e.model);
        r := r.(pricing := price);
      }
    }
  }

  lemma SameTableItself(t: Table)
    ensures SameTable(t, t) && NameSet(t) - NameSet(t) == {}
  {
  }

  /** Adds the names of a table to those already known. */
  method AddNames(known: set<string>, t: Table) returns (names: set<string>)
    ensures names == known + NameSet(t)
  {
    hide ModelEntry.Group;
    names := known;
    for i := 0 to |t|
      invariant names == known + NameSet(t[..i])
    {
      assert t[..i + 1] == t[..i] + [t[i]];
      NameAdded(t[..i], t[i]);
      names := names + {t[i].Group()};
    }
    assert t[..|t|] == t;
  }

  lemma NameAdded(t: Table, e: ModelEntry)
    ensures NameSet(t + [e]) == NameSet(t) + {e.Group()}
  {
    hide ModelEntry.Group;
    forall g ensures g in NameSet(t + [e]) <==> g in NameSet(t) + {e.Group()} {
      if g in NameSet(t) {
        var r :| r in t && r.Group() == g;
        assert r in t + [e];
      }
      assert e in t + [e];
    }
  }

  /** How many of the old names are not among the new ones. */
  method CountMissing(oldSet: set<string>, newSet: set<string>) returns (removed: nat)
    ensures removed == |oldSet - newSet|
  {
    removed := 0;
    var left := oldSet;
    assert oldSet - newSet - left == {};
    while left != {}
      invariant left <= oldSet && removed == |oldSet - newSet - left|
      decreases |left|
    {
      var key :| key in left;
      ghost var counted := oldSet - newSet - left;
      left := left - {key};
      if key !in newSet {
        assert oldSet - newSet - left == counted + {key};
        removed := removed + 1;
      } else {
        assert oldSet - newSet - left == counted;
      }
    }
    assert oldSet - newSet - {} == oldSet - newSet;
  }

  lemma NamesAreGroups(t: Table)
    ensures forall g :: g in NameSet(t) <==> Has(t, g)
  {
    hide ModelEntry.Group, Has;
    forall g ensures g in NameSet(t) <==> Has(t, g) { GroupRowsMembers(t, g); }
  }

  /** Preserving groups loses no discovered name, so counting those names too changes nothing. */
  lemma CarriedNamesStay(was: Table, carried: Table)
    ensures NameSet(carried) <= NameSet(Preserve(was, carried))
  {
    hide ModelEntry.Group, Has, Preserve, Protected, NameSet;
    NamesAreGroups(carried);
    NamesAreGroups(Preserve(was, carried));
    forall g | g in NameSet(carried) ensures g in NameSet(Preserve(was, carried)) { PreserveHas(was, carried, g); }
  }

  lemma CarriedName(was: Table, fetched: Table, o: Options, e: ModelEntry)
    ensures Carried(was, fetched, o, e).Group() == e.Group()
  {
  }

  method ReplaceModelEntries(cfg: Config, fetched: array<ModelEntry>, o: Options) returns (removed: nat, changed: bool)
    modifies cfg, fetched
    ensures fetched[..] == CarriedTable(old(cfg.entries), old(fetched[..]), o)
    ensures cfg.entries == Replaced(old(cfg.entries), old(fetched[..]), o)
    ensures changed <==> !SameTable(old(cfg.entries), cfg.entries)
    ensures removed == |NameSet(old(cfg.entries)) - NameSet(cfg.entries)|
  {
    hide Lower, Routing, Alias, Carried, Preserve, Hidden, Priced, Counted, ModelEntry.Group, NameSet;
    var oldEntries := cfg.entries;
    var st := CollectOldState(oldEntries, o);
    var oldSet := AddNames({}, oldEntries);
    var groups, routes := CountFetched(fetched);
    var newSet: set<string> := {};
    ghost var discovered := fetched[..];
    assert NameSet([]) == {} by { NoNames(); }
    for i := 0 to fetched.Length
      invariant forall k :: 0 <= k < i ==> fetched[k] == Carried(oldEntries, discovered, o, discovered[k])
      invariant forall k :: i <= k < fetched.Length ==> fetched[k] == discovered[k]
      invariant newSet == NameSet(fetched[..i])
      invariant cfg.entries == oldEntries
    {
      ghost var before := fetched[..i];
      var key := fetched[i].Group();
      newSet := newSet + {key};
      CarriedName(oldEntries, discovered, o, fetched[i]);
      fetched[i] := CarryRow(oldEntries, discovered, o, st, groups, routes, fetched[i]);
      NameAdded(before, fetched[i]);
      assert fetched[..i + 1] == before + [fetched[i]];
    }
    assert fetched[..fetched.Length] == fetched[..];
    assert fetched[..] == CarriedTable(oldEntries, discovered, o);
    var final := PreserveConfiguredVariants(oldEntries, fetched[..]);
    newSet := AddNames(newSet, final);
    CarriedNamesStay(oldEntries, fetched[..]);
    assert newSet == NameSet(final);
    removed := CountMissing(oldSet, newSet);
    if SameTable(oldEntries, final) {
      SameTableItself(oldEntries);
      return 0, false;
    }
    cfg.entries := final;
    changed := true;
  }

  lemma NoNames()
    ensures NameSet([]) == {}
  {
  }
}
