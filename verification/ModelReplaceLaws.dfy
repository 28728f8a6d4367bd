/** What a replacement refresh keeps, and what it may not switch back on. */
module ModelReplaceLaws {
  import opened Names
  import opened ModelTable
  import opened Seqs
  import opened ModelSave
  import opened ModelVariants
  import opened ModelVariantsLaws
  import opened ModelReplace

  lemma {:induction false} GroupRowsAppend(a: Table, b: Table, group: string)
    ensures GroupRows(a + b, group) == GroupRows(a, group) + GroupRows(b, group)
  {
    if b == [] {
      assert a + b == a;
    } else {
      assert (a + b)[..|a + b| - 1] == a + b[..|b| - 1];
      GroupRowsAppend(a, b[..|b| - 1], group);
    }
  }

  lemma {:induction false} GroupRowsWhole(rows: Table, group: string)
    requires forall e :: e in rows ==> e.Group() == group
    ensures GroupRows(rows, group) == rows
  {
    hide ModelEntry.Group;
    if rows != [] {
      assert rows == rows[..|rows| - 1] + [rows[|rows| - 1]];
      GroupRowsWhole(rows[..|rows| - 1], group);
    }
  }

  lemma NoRows(t: Table, group: string)
    requires !Has(t, group)
    ensures GroupRows(t, group) == []
  {
  }

  lemma ContiguousRows(t: Table, group: string, rows: Table)
    requires Contiguous(t, group, rows) && forall e :: e in rows ==> e.Group() == group
    ensures GroupRows(t, group) == rows
  {
    hide GroupRows, Has, ModelEntry.Group;
    var before: Table, after: Table :| t == before + rows + after && !Has(before, group) && !Has(after, group);
    GroupRowsAppend(before + rows, after, group);
    GroupRowsAppend(before, rows, group);
    GroupRowsWhole(rows, group);
    NoRows(before, group);
    NoRows(after, group);
    assert [] + rows + [] == rows;
  }

  /** A protected group comes through a replacement refresh row for row. */
  lemma ReplacedKeepsGroups(was: Table, fetched: Table, o: Options, group: string)
    requires Protected(was, group)
    ensures GroupRows(Replaced(was, fetched, o), group) == GroupRows(was, group)
  {
    hide Protected, GroupRows, SameTable, CarriedTable, Preserve, ModelEntry.Group, Contiguous;
    var carried := CarriedTable(was, fetched, o);
    PreserveKeepsGroups(was, carried);
    GroupRowsMembers(was, group);
    ContiguousRows(Preserve(was, carried), group, GroupRows(was, group));
  }

  lemma SameRowFacts(was: Table, a: ModelEntry, b: ModelEntry)
    requires SameRow(a, b)
    ensures Free(was, a) == Free(was, b)
    ensures a.disabled == b.disabled && a.Identity() == b.Identity() && a.Group() == b.Group()
  {
  }

  lemma {:induction false} SameFreeRows(was: Table, a: Table, b: Table)
    requires SameTable(a, b)
    ensures SameTable(Filter(e => Free(was, e), a), Filter(e => Free(was, e), b))
  {
    hide Free, SameRow;
    if a != [] {
      SameFreeRows(was, a[..|a| - 1], b[..|b| - 1]);
      SameRowFacts(was, a[|a| - 1], b[|b| - 1]);
    }
  }

  /** Outside the protected groups the new table is the discovered rows in order, each with the
      state it carries over. */
  lemma ReplacedFreeRows(was: Table, fetched: Table, o: Options)
    ensures SameTable(Filter(e => Free(was, e), Replaced(was, fetched, o)),
                      Filter(e => Free(was, e), CarriedTable(was, fetched, o)))
  {
    hide Free, SameRow, CarriedTable, Preserve;
    var carried := CarriedTable(was, fetched, o);
    PreserveKeepsGroups(was, carried);
    var kept := Preserve(was, carried);
    if SameTable(was, kept) {
      SameFreeRows(was, was, kept);
    } else {
      SameTableItself(Filter(e => Free(was, e), kept));
    }
  }

  lemma CarriedKeepsState(was: Table, fetched: Table, o: Options, e: ModelEntry)
    ensures Carried(was, fetched, o, e).Identity() == e.Identity()
    ensures e.disabled || DisabledRow(was, o, e.Identity()) ==> Carried(was, fetched, o, e).disabled
  {
    hide OneToOne, DisabledRow, NamesDisabled, RowPrice, FirstPrice, ModelIdentities;
    assert Carried(was, fetched, o, e).Target() == e.Target();
    hide ModelEntry.Target;
  }

  /** A refresh never switches on an unprotected row whose identity the administrator disabled. */
  lemma NeverReenabled(was: Table, fetched: Table, o: Options, e: ModelEntry)
    requires e in Replaced(was, fetched, o) && !Protected(was, e.Group())
    requires DisabledRow(was, o, e.Identity())
    ensures e.disabled
  {
    hide Protected, DisabledRow, SameRow, Carried, Preserve, ModelEntry.Identity, ModelEntry.Group;
    var carried := CarriedTable(was, fetched, o);
    var free := x => Free(was, x);
    var left, right := Filter(free, Replaced(was, fetched, o)), Filter(free, carried);
    ReplacedFreeRows(was, fetched, o);
    FilterMembers(free, Replaced(was, fetched, o));
    FilterMembers(free, carried);
    assert Free(was, e);
    var i :| 0 <= i < |left| && left[i] == e;
    SameRowFacts(was, left[i], right[i]);
    assert right[i] in carried;
    var k :| 0 <= k < |carried| && carried[k] == right[i];
    CarriedKeepsState(was, fetched, o, fetched[k]);
  }

  // ---- configured routes survive -------------------------------------------------------------

  /** The rows that bear a name are the enabled ones with that spelling in its group. */
  lemma {:induction false} ExactRowsOfGroup(t: Table, name: string)
    ensures ExactRows(t, name) == ExactRows(GroupRows(t, Lower(name)), name)
  {
    hide Lower, Filter;
    var p := (e: ModelEntry) => !e.disabled && e.model == name;
    if t == [] {
      assert GroupRows(t, Lower(name)) == [] by { NoRows(t, Lower(name)); }
    } else {
      var front, last := t[..|t| - 1], t[|t| - 1];
      assert t == front + [last];
      ExactRowsOfGroup(front, name);
      GroupStep(front, last, Lower(name));
      FilterStep(p, front, last);
      FilterStep(p, GroupRows(front, Lower(name)), last);
    }
  }

  /** The redirect is served, by its exact name, by a row that redirects again. */
  predicate HasBridge(t: Table, e: ModelEntry) {
    e.redirect != "" && ExactRows(t, e.redirect) != [] && ExactRows(t, e.redirect)[0].redirect != ""
  }

  lemma BridgeProtected(was: Table, e: ModelEntry)
    requires e in was && CountGroup(was, e.Group()) > 1 && HasBridge(was, e)
    ensures Protected(was, Lower(e.redirect))
  {
    hide Lower, CountGroup, Filter, AliasRows;
    FilterMembers((r: ModelEntry) => !r.disabled && r.model == e.redirect, was);
    var next := EnabledRows(was, e.redirect);
    assert next[0] in next;
    assert SecondHopOf(was, e, Lower(e.redirect));
  }

  /** A configured row of a multi-row group comes through a replacement, and so does the bridge its redirect goes
      over: it resolves to the same upstream as before, whatever was discovered. */
  lemma ConfiguredRoutesSurvive(was: Table, fetched: Table, o: Options, e: ModelEntry, logical: string)
    requires e in was && CountGroup(was, e.Group()) > 1
    ensures e in Replaced(was, fetched, o)
    ensures e.redirect == "" || HasBridge(was, e) ==>
      ResolveActual(Replaced(was, fetched, o), logical, e) == ResolveActual(was, logical, e)
  {
    hide Protected, GroupRows, Replaced, CountGroup, ModelEntry.Group, Routing, ExactRows, AliasRows, Lower;
    var final := Replaced(was, fetched, o);
    assert Protected(was, e.Group()) by { Several(was, e.Group()); }
    ReplacedKeepsGroups(was, fetched, o, e.Group());
    GroupRowsMembers(was, e.Group());
    GroupRowsMembers(final, e.Group());
    if HasBridge(was, e) {
      BridgeProtected(was, e);
      ReplacedKeepsGroups(was, fetched, o, Lower(e.redirect));
      ExactRowsOfGroup(was, e.redirect);
      ExactRowsOfGroup(final, e.redirect);
    }
  }

  lemma Several(was: Table, group: string)
    requires CountGroup(was, group) > 1
    ensures Protected(was, group)
  {
  }

  // ---- the state a discovered row takes over -------------------------------------------------

  /** A name a row's state may be found under: the name, its normalised form, and what either routes as. */
  ghost predicate Called(name: string, o: Options, n: string) {
    && name != ""
    && (n == Lower(name) || n == Lower(Alias(name, o)) || n == Lower(Routing(name)) ||
        n == Lower(Routing(Alias(name, o))))
  }

  lemma CalledExactly(name: string, o: Options)
    ensures forall n :: n in ModelIdentities(name, o) <==> Called(name, o, n)
  {
    hide Lower, Alias, Routing;
    var names := ModelIdentities(name, o);
    if name != "" {
      assert names[0] in names && names[1] in names && names[2] in names && names[3] in names;
    }
  }

  /** Exactly one row of the table has the property. */
  ghost predicate OnlyRow(t: Table, p: ModelEntry -> bool) {
    exists i :: 0 <= i < |t| && p(t[i]) && forall j :: 0 <= j < |t| && j != i ==> !p(t[j])
  }

  lemma {:induction false} CountNone<A>(p: A -> bool, xs: seq<A>)
    ensures Count(p, xs) == 0 <==> forall i :: 0 <= i < |xs| ==> !p(xs[i])
  {
    if xs != [] {
      CountNone(p, xs[..|xs| - 1]);
      assert forall i :: 0 <= i < |xs| - 1 ==> xs[i] == xs[..|xs| - 1][i];
    }
  }

  lemma OnlyRowStep(front: Table, e: ModelEntry, p: ModelEntry -> bool)
    ensures OnlyRow(front + [e], p) <==>
      if p(e) then forall i :: 0 <= i < |front| ==> !p(front[i]) else OnlyRow(front, p)
  {
    var t, n := front + [e], |front|;
    assert forall i :: 0 <= i < n ==> front[i] == t[i];
    assert t[n] == e;
    if OnlyRow(front, p) && !p(e) {
      var i :| 0 <= i < n && p(front[i]) && forall j :: 0 <= j < n && j != i ==> !p(front[j]);
      assert p(t[i]) && forall j :: 0 <= j < |t| && j != i ==> !p(t[j]);
    }
    if OnlyRow(t, p) && !p(e) {
      var i :| 0 <= i < |t| && p(t[i]) && forall j :: 0 <= j < |t| && j != i ==> !p(t[j]);
      assert p(front[i]) && forall j :: 0 <= j < n && j != i ==> !p(front[j]);
    }
  }

  lemma {:induction false} CountOne(p: ModelEntry -> bool, t: Table)
    ensures Count(p, t) == 1 <==> OnlyRow(t, p)
  {
    if t != [] {
      var front, e := t[..|t| - 1], t[|t| - 1];
      assert t == front + [e];
      CountOne(p, front);
      CountNone(p, front);
      OnlyRowStep(front, e, p);
      hide OnlyRow;
    }
  }

  lemma {:induction false} CountsAre(t: Table, o: Options, key: string)
    ensures AliasCount(t, o, key) == Count((r: ModelEntry) => Lower(Alias(r.model, o)) == key, t)
    ensures RoutingAliasCount(t, o, key) == Count((r: ModelEntry) => Lower(Routing(Alias(r.model, o))) == key, t)
    ensures RoutingCount(t, key) == Count((r: ModelEntry) => Lower(Routing(r.model)) == key, t)
    ensures CountGroup(t, key) == Count((r: ModelEntry) => Lower(r.model) == key, t)
  {
    hide Lower, Alias, Routing;
    if t != [] { CountsAre(t[..|t| - 1], o, key); }
  }

  /** One old and one discovered row go under the discovered row's name, or under what it routes as. */
  ghost predicate Corresponds(was: Table, fetched: Table, o: Options, e: ModelEntry) {
    || (OnlyRow(was, (r: ModelEntry) => Lower(Alias(r.model, o)) == Lower(e.model)) &&
        OnlyRow(fetched, (r: ModelEntry) => Lower(r.model) == Lower(e.model)))
    || (OnlyRow(was, (r: ModelEntry) => Lower(Routing(Alias(r.model, o))) == Lower(Routing(e.model))) &&
        OnlyRow(fetched, (r: ModelEntry) => Lower(Routing(r.model)) == Lower(Routing(e.model))))
  }

  lemma OneToOneExactly(was: Table, fetched: Table, o: Options, e: ModelEntry)
    ensures OneToOne(was, fetched, o, e) <==> Corresponds(was, fetched, o, e)
  {
    hide Lower, Alias, Routing, Count, OnlyRow;
    var byName, byRouting := Lower(e.model), Lower(Routing(e.model));
    CountsAre(was, o, byName);
    CountsAre(fetched, o, byName);
    CountsAre(was, o, byRouting);
    CountsAre(fetched, o, byRouting);
    CountOne((r: ModelEntry) => Lower(Alias(r.model, o)) == byName, was);
    CountOne((r: ModelEntry) => Lower(r.model) == byName, fetched);
    CountOne((r: ModelEntry) => Lower(Routing(Alias(r.model, o))) == byRouting, was);
    CountOne((r: ModelEntry) => Lower(Routing(r.model)) == byRouting, fetched);
  }

  /** The old row, once its name is normalised, is the discovered one. */
  ghost predicate SameModel(r: ModelEntry, o: Options, e: ModelEntry) {
    Lower(Alias(r.model, o)) == Lower(e.model) && Lower(Routing(r.Target())) == Lower(Routing(e.Target()))
  }

  /** The rows share a name, directly or through a redirect. */
  ghost predicate ShareName(r: ModelEntry, o: Options, e: ModelEntry) {
    exists n :: (Called(r.model, o, n) || Called(r.redirect, o, n)) &&
        (Called(e.model, o, n) || Called(e.redirect, o, n))
  }

  /** A discovered row is disabled exactly if it was discovered so, if a disabled old row is the same model, or if
      it corresponds to one old row and a disabled one shares a name with it. Its names stay as discovered. */
  lemma CarriedStateExactly(was: Table, fetched: Table, o: Options, e: ModelEntry)
    ensures var after := Carried(was, fetched, o, e);
      && after.model == e.model && after.redirect == e.redirect
      && (after.disabled <==>
            || e.disabled
            || (exists r :: r in was && r.disabled && SameModel(r, o, e))
            || (Corresponds(was, fetched, o, e) && exists r :: r in was && r.disabled && ShareName(r, o, e)))
  {
    hide Lower, Alias, Routing, ModelIdentities, OneToOne, Corresponds, Called, RowPrice, FirstPrice;
    OneToOneExactly(was, fetched, o, e);
    CalledExactly(e.model, o);
    CalledExactly(e.redirect, o);
    forall r | r in was
      ensures HidesRow(r, o, e.Identity()) <==> r.disabled && SameModel(r, o, e)
      ensures forall n :: HidesName(r, o, n) <==> r.disabled && (Called(r.model, o, n) || Called(r.redirect, o, n))
    {
      CalledExactly(r.model, o);
      CalledExactly(r.redirect, o);
    }
  }

  /** The price of the last priced old row that is the same model. */
  ghost predicate LastPriced(was: Table, o: Options, e: ModelEntry, price: Pricing) {
    exists k :: 0 <= k < |was| && SameModel(was[k], o, e) && was[k].pricing == price && !price.Unpriced? &&
                forall j :: k < j < |was| && SameModel(was[j], o, e) ==> was[j].pricing.Unpriced?
  }

  /** The price of the first priced old row called `n`. */
  ghost predicate FirstPriced(was: Table, o: Options, n: string, price: Pricing) {
    exists k :: 0 <= k < |was| && Called(was[k].model, o, n) && was[k].pricing == price && !price.Unpriced? &&
                forall j :: 0 <= j < k && Called(was[j].model, o, n) ==> was[j].pricing.Unpriced?
  }

  /** No old row called so has a price. */
  ghost predicate NoneNamed(was: Table, o: Options, n: string) {
    forall r :: r in was && Called(r.model, o, n) ==> r.pricing.Unpriced?
  }

  ghost predicate NoneSame(was: Table, o: Options, e: ModelEntry) {
    forall r :: r in was && SameModel(r, o, e) ==> r.pricing.Unpriced?
  }

  lemma SameIdentity(r: ModelEntry, o: Options, e: ModelEntry)
    ensures NormalizedId(r, o) == e.Identity() <==> SameModel(r, o, e)
  {
    hide Lower, Alias, Routing;
  }

  lemma {:induction false} RowPriceTells(was: Table, o: Options, e: ModelEntry)
    ensures var price := RowPrice(was, o, e.Identity());
      if price.Unpriced? then NoneSame(was, o, e) else LastPriced(was, o, e, price)
  {
    hide SameModel, NormalizedId, ModelEntry.Identity;
    if was != [] {
      var front, last := was[..|was| - 1], was[|was| - 1];
      assert was == front + [last];
      RowPriceTells(front, o, e);
      SameIdentity(last, o, e);
      var price := RowPrice(was, o, e.Identity());
      if !last.pricing.Unpriced? && SameModel(last, o, e) {
        assert SameModel(was[|front|], o, e);
      } else if !price.Unpriced? {
        var k :| 0 <= k < |front| && SameModel(front[k], o, e) && front[k].pricing == price && !price.Unpriced? &&
                 forall j :: k < j < |front| && SameModel(front[j], o, e) ==> front[j].pricing.Unpriced?;
        assert SameModel(was[k], o, e) && forall j :: k < j < |front| ==> was[j] == front[j];
      }
    }
  }

  lemma {:induction false} NamePriceTells(was: Table, o: Options, n: string)
    ensures var price := NamePrice(was, o, n);
      if price.Unpriced? then NoneNamed(was, o, n) else FirstPriced(was, o, n, price)
  {
    hide Called, ModelIdentities;
    if was != [] {
      var front, last := was[..|was| - 1], was[|was| - 1];
      assert was == front + [last];
      NamePriceTells(front, o, n);
      CalledExactly(last.model, o);
      var earlier, price := NamePrice(front, o, n), NamePrice(was, o, n);
      if !earlier.Unpriced? {
        var k :| 0 <= k < |front| && Called(front[k].model, o, n) && front[k].pricing == earlier &&
            !earlier.Unpriced? &&
                 forall j :: 0 <= j < k && Called(front[j].model, o, n) ==> front[j].pricing.Unpriced?;
        assert Called(was[k].model, o, n) && forall j :: 0 <= j < k ==> was[j] == front[j];
      } else if !price.Unpriced? {
        assert Called(was[|front|].model, o, n) && was[|front|].pricing == price;
        forall j | 0 <= j < |front| && Called(was[j].model, o, n) ensures was[j].pricing.Unpriced? {
          assert was[j] in front;
        }
      }
    }
  }

  /** The price found under the first of the names that leads to one. */
  ghost predicate PricedUnder(was: Table, o: Options, names: seq<string>, price: Pricing) {
    exists i :: 0 <= i < |names| && FirstPriced(was, o, names[i], price) &&
                forall h :: 0 <= h < i ==> NoneNamed(was, o, names[h])
  }

  lemma {:induction false} FirstPriceTells(was: Table, o: Options, names: seq<string>)
    ensures var price := FirstPrice(was, o, names);
      if price.Unpriced? then forall i :: 0 <= i < |names| ==> NoneNamed(was, o, names[i])
      else PricedUnder(was, o, names, price)
    decreases |names|
  {
    hide FirstPriced, NoneNamed, NamePrice;
    if names != [] {
      var rest := names[1..];
      NamePriceTells(was, o, names[0]);
      FirstPriceTells(was, o, rest);
      var price := FirstPrice(was, o, names);
      if NamePrice(was, o, names[0]).Unpriced? {
        forall h | 0 <= h < |rest| ensures names[h + 1] == rest[h] {}
        if price.Unpriced? {
          forall i | 0 <= i < |names| ensures NoneNamed(was, o, names[i]) {
            if i > 0 { assert names[i] == rest[i - 1]; }
          }
        } else {
          var i :| 0 <= i < |rest| && FirstPriced(was, o, rest[i], price) &&
                   forall h :: 0 <= h < i ==> NoneNamed(was, o, rest[h]);
          forall h | 0 <= h < i + 1 ensures NoneNamed(was, o, names[h]) {
            if h > 0 { assert names[h] == rest[h - 1]; }
          }
          assert FirstPriced(was, o, names[i + 1], price);
        }
      } else {
        assert FirstPriced(was, o, names[0], price);
      }
    }
  }

  /** The four names of a row, from the most to the least specific. */
  ghost function NamesOf(e: ModelEntry, o: Options): seq<string> {
    if e.model == "" then []
    else [Lower(e.model), Lower(Alias(e.model, o)), Lower(Routing(e.model)), Lower(Routing(Alias(e.model, o)))]
  }

  /** The price of a discovered row: its own; else that of the last priced old row of the same model; else, if it
      corresponds to one old row, that found first under its names; else none. */
  lemma CarriedPriceExactly(was: Table, fetched: Table, o: Options, e: ModelEntry)
    ensures var price, one := Carried(was, fetched, o, e).pricing, Corresponds(was, fetched, o, e);
            var nameless := forall i :: 0 <= i < |NamesOf(e, o)| ==> NoneNamed(was, o, NamesOf(e, o)[i]);
      if !e.pricing.Unpriced? then price == e.pricing
      else if !NoneSame(was, o, e) then LastPriced(was, o, e, price)
      else if one && !nameless then PricedUnder(was, o, NamesOf(e, o), price)
      else price.Unpriced?
  {
    hide Corresponds, NoneNamed, FirstPriced, OneToOne, RowPrice, FirstPrice, DisabledRow, NamesDisabled, SameModel;
    assert ModelIdentities(e.model, o) == NamesOf(e, o);
    hide Lower, Alias, Routing, ModelIdentities, NamesOf;
    OneToOneExactly(was, fetched, o, e);
    RowPriceTells(was, o, e);
    FirstPriceTells(was, o, ModelIdentities(e.model, o));
    if RowPrice(was, o, e.Identity()).Unpriced? {
      var price := FirstPrice(was, o, ModelIdentities(e.model, o));
      if !price.Unpriced? { NotNameless(was, o, ModelIdentities(e.model, o), price); }
    } else {
      SomeSame(was, o, e, RowPrice(was, o, e.Identity()));
    }
  }

  lemma SomeSame(was: Table, o: Options, e: ModelEntry, price: Pricing)
    requires LastPriced(was, o, e, price)
    ensures !NoneSame(was, o, e)
  {
    hide SameModel;
  }

  lemma NotNameless(was: Table, o: Options, names: seq<string>, price: Pricing)
    requires PricedUnder(was, o, names, price)
    ensures exists i :: 0 <= i < |names| && !NoneNamed(was, o, names[i])
  {
    hide Called;
  }
}
