/** Keeping an administrator's multi-target groups through a replacement refresh. */
module ModelVariants {
  import opened ModelTable

  /** `e` belongs to a multi-target group and its redirect is served by the row `next`, which redirects again. */
  predicate SecondHopOf(existing: Table, e: ModelEntry, group: string) {
    && e in existing && CountGroup(existing, e.Group()) > 1 && e.redirect != ""
    && var next := EnabledRows(existing, e.redirect);
    next != [] && next[0].redirect != "" && next[0].Group() == group
  }

  predicate Bridged(existing: Table, seen: Table, group: string) {
    exists e :: e in seen && SecondHopOf(existing, e, group)
  }

  /** Groups a refresh must keep: those with several rows, and the bridges their redirects go through. */
  predicate Protected(existing: Table, group: string) {
    CountGroup(existing, group) > 1 || Bridged(existing, existing, group)
  }

  lemma ProtectedHas(existing: Table, group: string)
    requires Protected(existing, group)
    ensures Has(existing, group)
  {
    hide ModelEntry.Group, CountGroup, EnabledRows;
    if CountGroup(existing, group) <= 1 {
      var e :| e in existing && SecondHopOf(existing, e, group);
      EnabledRowsMembers(existing, e.redirect);
      GroupRowsMembers(existing, group);
      assert EnabledRows(existing, e.redirect)[0] in existing;
    }
  }

  // ---- specification -------------------------------------------------------------------------

  /** What one row contributes after the rows `before` it. */
  function Block(existing: Table, before: Table, e: ModelEntry): Table {
    if !Protected(existing, e.Group()) then [e]
    else if Has(before, e.Group()) then []
    else GroupRows(existing, e.Group())
  }

  /** `fetched` with every protected group replaced, at its first row, by the configured group. */
  function Body(existing: Table, fetched: Table): Table {
    if fetched == [] then []
    else
      var front := fetched[..|fetched| - 1];
      Body(existing, front) + Block(existing, front, fetched[|fetched| - 1])
  }

  /** The protected groups of the rows `seen` that `fetched` does not mention, in configured order. */
  function Tail(existing: Table, seen: Table, fetched: Table): Table {
    if seen == [] then []
    else
      var front, group := seen[..|seen| - 1], seen[|seen| - 1].Group();
      Tail(existing, front, fetched) +
      if Protected(existing, group) && !Has(front, group) && !Has(fetched, group) then GroupRows(existing, group)
          else []
  }

  function Preserve(existing: Table, fetched: Table): Table {
    Body(existing, fetched) + Tail(existing, existing, fetched)
  }

  // ---- the loops -----------------------------------------------------------------------------

  /** The protected groups among `seen`, in order of first appearance. */
  function Order(existing: Table, seen: Table): (keys: seq<string>) {
    if seen == [] then []
    else
      var front, group := seen[..|seen| - 1], seen[|seen| - 1].Group();
      Order(existing, front) + if Protected(existing, group) && !Has(front, group) then [group] else []
  }

  /** How many rows carry each case-folded name. */
  method CountGroups(t: Table) returns (counts: map<string, nat>)
    ensures forall g :: (if g in counts then counts[g] else 0) == CountGroup(t, g)
  {
    hide ModelEntry.Group, CountGroup, Has;
    forall g ensures CountGroup([], g) == 0 { NoneInEmpty(g); }
    counts := map[];
    for i := 0 to |t|
      invariant forall g :: (if g in counts then counts[g] else 0) == CountGroup(t[..i], g)
    {
      assert t[..i + 1] == t[..i] + [t[i]];
      var key := t[i].Group();
      forall g { GroupStep(t[..i], t[i], g); }
      counts := counts[key := (if key in counts then counts[key] else 0) + 1];
    }
    assert t[..|t|] == t;
  }

  method ProtectedGroups(existing: Table) returns (protected: set<string>)
    ensures forall g :: g in protected <==> Protected(existing, g)
  {
    hide ModelEntry.Group, CountGroup, EnabledRows, Has, Bridged;
    var counts := CountGroups(existing);
    forall g ensures !Bridged(existing, [], g) { NoneBridged(existing, g); }
    protected := set g | g in counts && counts[g] > 1;
    for i := 0 to |existing|
      invariant forall g :: g in protected <==>
                            CountGroup(existing, g) > 1 || Bridged(existing, existing[..i], g)
    {
      assert existing[..i + 1] == existing[..i] + [existing[i]];
      var e := existing[i];
      var next := EnabledRows(existing, e.redirect);
      forall g { BridgedStep(existing, existing[..i], e, g); }
      assert forall g :: SecondHopOf(existing, e, g) <==>
        CountGroup(existing, e.Group()) > 1 && e.redirect != "" && next != [] && next[0].redirect != "" &&
            next[0].Group() == g;
      if (if e.Group() in counts then counts[e.Group()] else 0) < 2 || e.redirect == "" {
        continue;
      }
      if next != [] && next[0].redirect != "" {
        protected := protected + {next[0].Group()};
      }
    }
    assert existing[..|existing|] == existing;
  }

  lemma NoneBridged(existing: Table, group: string)
    ensures !Bridged(existing, [], group)
  {
  }

  lemma BridgedStep(existing: Table, seen: Table, e: ModelEntry, group: string)
    requires e in existing
    ensures Bridged(existing, seen + [e], group) <==> Bridged(existing, seen, group) || SecondHopOf(existing, e, group)
  {
    hide SecondHopOf;
    assert e in seen + [e];
  }

  ghost predicate Grouped(existing: Table, seen: Table, groups: map<string, Table>) {
    && (forall g :: g in groups <==> Protected(existing, g) && Has(seen, g))
    && (forall g :: g in groups ==> groups[g] == GroupRows(seen, g))
  }

  method ConfiguredGroups(existing: Table, protected: set<string>)
    returns (groups: map<string, Table>, order: seq<string>)
    requires forall g :: g in protected <==> Protected(existing, g)
    ensures order == Order(existing, existing)
    ensures Grouped(existing, existing, groups)
  {
    hide ModelEntry.Group, CountGroup, Protected, GroupRows;
    groups, order := map[], [];
    NoGroups(existing);
    for i := 0 to |existing|
      invariant order == Order(existing, existing[..i])
      invariant Grouped(existing, existing[..i], groups)
    {
      var seen, e := existing[..i], existing[i];
      assert existing[..i + 1] == seen + [e];
      assert (seen + [e])[..i] == seen;
      var key := e.Group();
      forall g { GroupStep(seen, e, g); }
      if key !in protected {
        continue;
      }
      if key !in groups {
        order := order + [key];
        NoRows(seen, key);
      }
      groups := groups[key := (if key in groups then groups[key] else []) + [e]];
    }
    assert existing[..|existing|] == existing;
  }

  lemma NoGroups(existing: Table)
    ensures Grouped(existing, [], map[])
  {
  }

  lemma NoRows(t: Table, group: string)
    requires !Has(t, group)
    ensures GroupRows(t, group) == []
  {
  }

  method SubstituteGroups(existing: Table, fetched: Table, groups: map<string, Table>)
    returns (result: Table, inserted: set<string>)
    requires Grouped(existing, existing, groups)
    ensures result == Body(existing, fetched)
    ensures forall g :: g in inserted <==> Protected(existing, g) && Has(fetched, g)
  {
    hide ModelEntry.Group, CountGroup, Protected, GroupRows, Has;
    result, inserted := [], {};
    forall g ensures !Has([], g) { NoneInEmpty(g); }
    for i := 0 to |fetched|
      invariant result == Body(existing, fetched[..i])
      invariant forall g :: g in inserted <==> Protected(existing, g) && Has(fetched[..i], g)
    {
      var seen, e := fetched[..i], fetched[i];
      assert fetched[..i + 1] == seen + [e];
      assert (seen + [e])[..i] == seen;
      var key := e.Group();
      forall g { GroupStep(seen, e, g); }
      if Protected(existing, key) {
        ProtectedHas(existing, key);
      }
      if key in groups {
        if key !in inserted {
          result := result + groups[key];
          inserted := inserted + {key};
        }
        continue;
      }
      result := result + [e];
    }
    assert fetched[..|fetched|] == fetched;
  }

  method PreserveConfiguredVariants(existing: Table, fetched: Table) returns (result: Table)
    ensures result == Preserve(existing, fetched)
  {
    hide ModelEntry.Group, CountGroup, Protected, GroupRows, Tail, Body, Has, Remaining, Order;
    var protected := ProtectedGroups(existing);
    var groups, order := ConfiguredGroups(existing, protected);
    var inserted;
    result, inserted := SubstituteGroups(existing, fetched, groups);
    OrderProtected(existing, existing);
    ghost var rest: Table := [];
    RemainingStep(existing, [], "", fetched);
    for i := 0 to |order|
      invariant result == Body(existing, fetched) + rest && rest == Remaining(existing, order[..i], fetched)
    {
      assert order[..i + 1] == order[..i] + [order[i]];
      RemainingStep(existing, order[..i], order[i], fetched);
      if order[i] !in inserted {
        result := result + groups[order[i]];
        rest := rest + groups[order[i]];
      }
    }
    assert order[..|order|] == order;
    RemainingIsTail(existing, existing, fetched);
  }

  /** The configured rows of the listed groups that `fetched` does not mention. */
  function Remaining(existing: Table, keys: seq<string>, fetched: Table): Table {
    if keys == [] then []
    else
      var key := keys[|keys| - 1];
      Remaining(existing, keys[..|keys| - 1], fetched) + if Has(fetched, key) then [] else GroupRows(existing, key)
  }

  lemma RemainingStep(existing: Table, keys: seq<string>, key: string, fetched: Table)
    ensures Remaining(existing, [], fetched) == []
    ensures Remaining(existing, keys + [key], fetched) ==
            Remaining(existing, keys, fetched) + if Has(fetched, key) then [] else GroupRows(existing, key)
  {
    assert (keys + [key])[..|keys|] == keys;
  }

  lemma {:induction false} OrderProtected(existing: Table, seen: Table)
    ensures forall g :: g in Order(existing, seen) ==> Protected(existing, g) && Has(seen, g)
  {
    hide ModelEntry.Group, CountGroup, Protected, Has;
    if seen != [] {
      var front, last := seen[..|seen| - 1], seen[|seen| - 1];
      assert seen == front + [last];
      OrderProtected(existing, front);
      forall g { GroupStep(front, last, g); }
    }
  }

  lemma {:induction false} RemainingIsTail(existing: Table, seen: Table, fetched: Table)
    ensures Remaining(existing, Order(existing, seen), fetched) == Tail(existing, seen, fetched)
  {
    hide ModelEntry.Group, CountGroup, Protected, Has, GroupRows;
    if seen != [] {
      var front, group := seen[..|seen| - 1], seen[|seen| - 1].Group();
      RemainingIsTail(existing, front, fetched);
      var keys := Order(existing, front);
      assert (keys + [group])[..|keys|] == keys;
      assert keys + [] == keys;
    }
  }
}
