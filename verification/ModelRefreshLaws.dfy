/** What refresh normalisation and replacement guarantee about a channel's rows. */
module ModelRefreshLaws {
  import opened Names
  import opened ModelTable
  import opened Seqs
  import opened ModelSave
  import opened ModelSaveLaws
  import opened ModelRefresh

  // ---- refresh normalisation -----------------------------------------------------------------

  lemma RefreshStep(existing: Table, seen: Table, e: ModelEntry, o: Options)
    ensures !Single(existing, e) ==> Refreshed(existing, seen + [e], o) == Refreshed(existing, seen, o) + [e]
    ensures Single(existing, e) ==>
              var before, after := Refreshed(existing, seen, o), Refreshed(existing, seen + [e], o);
              after == before
              || (exists r: ModelEntry :: after == before + [r] && !GroupIdentity(existing, existing, r.Identity())
                                          && !HasIdentity(before, r.Identity()))
  {
    hide ModelEntry.Identity, ModelEntry.Group, SaveTable, StoredSingle, HasIdentity, GroupIdentity, Single;
    assert (seen + [e])[..|seen|] == seen;
    var before := Refreshed(existing, seen, o);
    if Single(existing, e) {
      var row := SingleRow(existing, o, before, e);
      if row.Some? {
        StoredIdentity(existing, SaveTable(Singles(existing, existing), o), SaveTable([e], o)[0].Identity());
      }
    }
  }

  /** Rows whose identity belongs to a multi-row group. */
  ghost function InGroups(existing: Table): ModelEntry -> bool {
    (r: ModelEntry) => GroupIdentity(existing, existing, r.Identity())
  }

  /** Rows of a multi-row group. */
  ghost function MultiRow(existing: Table): ModelEntry -> bool {
    (r: ModelEntry) => !Single(existing, r)
  }

  /** Rows of multi-row groups keep their place and their order, and no other row takes their identity. */
  lemma {:induction false} RefreshKeepsGroups(existing: Table, seen: Table, o: Options)
    requires forall e :: e in seen ==> e in existing
    ensures Filter(InGroups(existing), Refreshed(existing, seen, o))
         == Filter(InGroups(existing), Filter(MultiRow(existing), seen))
  {
    hide ModelEntry.Identity, ModelEntry.Group, HasIdentity, GroupIdentity, Single, Refreshed;
    var grouped := InGroups(existing);
    var multi := MultiRow(existing);
    if seen == [] {
      assert Refreshed(existing, seen, o) == [] by { RefreshEmpty(existing, o); }
    } else {
      var front, e := seen[..|seen| - 1], seen[|seen| - 1];
      assert seen == front + [e];
      RefreshKeepsGroups(existing, front, o);
      RefreshStep(existing, front, e, o);
      var before := Refreshed(existing, front, o);
      FilterStep(grouped, before, e);
      FilterStep(grouped, Filter(multi, front), e);
      FilterStep(multi, front, e);
      if Single(existing, e) && Refreshed(existing, seen, o) != before {
        var r: ModelEntry :| Refreshed(existing, seen, o) == before + [r] &&
            !GroupIdentity(existing, existing, r.Identity());
        FilterStep(grouped, before, r);
      }
    }
  }

  lemma RefreshEmpty(existing: Table, o: Options)
    ensures Refreshed(existing, [], o) == []
  {
  }

  lemma RefreshKeepsGroupRows(existing: Table, o: Options)
    ensures Filter(InGroups(existing), RefreshedTable(existing, o))
         == Filter(MultiRow(existing), existing)
  {
    hide ModelEntry.Identity, ModelEntry.Group, HasIdentity, Single, Refreshed;
    RefreshKeepsGroups(existing, existing, o);
    var multi := MultiRow(existing);
    FilterMembers(multi, existing);
    forall r | r in Filter(multi, existing) ensures GroupIdentity(existing, existing, r.Identity()) {
      GroupRowIdentity(existing, r);
    }
    FilterAll(InGroups(existing), Filter(multi, existing));
  }

  lemma {:induction false} RefreshDistinct(existing: Table, seen: Table, o: Options)
    requires seen <= existing && DistinctIdentities(existing)
    ensures DistinctIdentities(Refreshed(existing, seen, o))
    ensures forall id :: HasIdentity(Refreshed(existing, seen, o), id) && GroupIdentity(existing, existing, id)
                         ==> HasIdentity(seen, id)
  {
    hide ModelEntry.Identity, ModelEntry.Group, HasIdentity, GroupIdentity, Single, Refreshed;
    NothingThere();
    if seen == [] {
      RefreshEmpty(existing, o);
    } else {
      var front, e := seen[..|seen| - 1], seen[|seen| - 1];
      assert seen == front + [e] && e == existing[|front|];
      RefreshDistinct(existing, front, o);
      RefreshStep(existing, front, e, o);
      var before := Refreshed(existing, front, o);
      RowAdded(front, e);
      if !Single(existing, e) {
        GroupRowIdentity(existing, e);
        RowAdded(before, e);
        EarlierDiffers(existing, front, e);
        NoSuchIdentity(before, e.Identity());
      } else if Refreshed(existing, seen, o) != before {
        var r: ModelEntry :| Refreshed(existing, seen, o) == before + [r] &&
            !GroupIdentity(existing, existing, r.Identity())
                             && !HasIdentity(before, r.Identity());
        RowAdded(before, r);
        NoSuchIdentity(before, r.Identity());
      }
    }
  }

  lemma EarlierDiffers(existing: Table, front: Table, e: ModelEntry)
    requires front + [e] <= existing && DistinctIdentities(existing)
    ensures !HasIdentity(front, e.Identity())
  {
    hide ModelEntry.Identity;
    assert existing[|front|] == (front + [e])[|front|] == e;
    forall r | r in front ensures r.Identity() != e.Identity() {
      var i :| 0 <= i < |front| && front[i] == r;
      assert existing[i] == (front + [e])[i] == r;
    }
  }

  // ---- nothing a valid single row stood for is lost ------------------------------------------

  /** The identity a single row normalises to, when it is storable. */
  lemma OneRowIdentity(e: ModelEntry, o: Options)
    ensures |SaveTable([e], o)| == if Validate(e).Some? then 1 else 0
    ensures Validate(e).Some? ==>
              SaveTable([e], o)[0].Identity() ==
              RowId(Lower(Alias(Validate(e).value.model, o)), Lower(Routing(Validate(e).value.Target())))
  {
    hide Lower, Routing, Validate, Alias, NamedRows, Dedup, FilterMap, Chosen, NameRow;
    assert [] + [e] == [e];
    FilterMapStep(Validate, [], e);
    SavedFirst(o);
    if Validate(e).Some? {
      var c := Validate(e).value;
      var x := NameRow(c, Alias(c.model, o), o);
      assert [] + [c] == [c] && [] + [x] == [x];
      NamedStep([], c, o);
      ChosenFirst(c, o);
      DedupStep([], x);
      NamedTarget(c, Alias(c.model, o), o);
    }
  }

  lemma NamedTarget(c: ModelEntry, alias: string, o: Options)
    ensures NameRow(c, alias, o).row.Target() == c.Target() || c.Target() == ""
    ensures c.Target() == "" ==> NameRow(c, alias, o).row.Target() == alias
    ensures NameRow(c, alias, o).row.model == alias
  {
  }

  lemma {:induction false} SinglesMembers(existing: Table, seen: Table)
    ensures forall e :: e in Singles(existing, seen) <==> e in seen && Single(existing, e)
  {
    hide Single;
    if seen != [] {
      assert seen == seen[..|seen| - 1] + [seen[|seen| - 1]];
      SinglesMembers(existing, seen[..|seen| - 1]);
    }
  }

  lemma SavedIdentity(entries: Table, o: Options, row: ModelEntry)
    requires row in CleanRows(entries)
    ensures HasIdentity(SaveTable(entries, o), RowId(Lower(Alias(row.model, o)), Lower(Routing(row.Target()))))
  {
    hide Lower, LastIndex, Routing, Validate, Alias, Prefer, FilterMap, Spelling, NamedRows, Dedup, NameRow;
    var rows := CleanRows(entries);
    var i :| 0 <= i < |rows| && rows[i] == row;
    NamedRowsOrigin(rows, o);
    SaveKeepsBest(entries, o);
    CleanRowNamed(entries, row);
    var x := NamedRows(rows, o)[i];
    assert NamedFrom(x, rows, o, row) && Represents(Kept(entries, o), x);
    NamedIdentity(row, x.row.model, o);
    var kept := Kept(entries, o);
    var k :| 0 <= k < |kept| && kept[k].id == x.id;
    assert kept[k] in kept && FromRows(kept[k], rows, o);
    assert SaveTable(entries, o)[k] == kept[k].row && SaveTable(entries, o)[k] in SaveTable(entries, o);
  }

  lemma NamedIdentity(row: ModelEntry, alias: string, o: Options)
    requires row.Target() != ""
    ensures NameRow(row, alias, o).id == RowId(Lower(alias), Lower(Routing(row.Target())))
  {
    hide Lower, Routing, LastIndex;
  }

  lemma {:induction false} GroupSpellingFolds(existing: Table, seen: Table, group: string)
    ensures GroupSpelling(existing, seen, group) != "" ==> Lower(GroupSpelling(existing, seen, group)) == group
  {
    hide Lower, Single;
    if seen != [] { GroupSpellingFolds(existing, seen[..|seen| - 1], group); }
  }

  lemma RespellKeeps(existing: Table, r: ModelEntry)
    ensures Respell(existing, r).Identity() == r.Identity()
    ensures EqualFold(Respell(existing, r).Target(), r.Target())
    ensures Respell(existing, r).disabled == r.disabled && Respell(existing, r).pricing == r.pricing
  {
    hide Lower, Routing, GroupSpelling;
    GroupSpellingFolds(existing, existing, r.Group());
    RoutingFolds(Respell(existing, r).Target(), r.Target());
  }

  lemma {:induction false} StoredFound(existing: Table, saved: Table, r: ModelEntry)
    requires r in saved
    ensures StoredSingle(existing, saved, r.Identity()).Some?
  {
    hide ModelEntry.Identity, Respell;
    var front, last := saved[..|saved| - 1], saved[|saved| - 1];
    assert saved == front + [last];
    RespellKeeps(existing, last);
    if Respell(existing, last).Identity() != r.Identity() {
      StoredFound(existing, front, r);
    }
  }

  /** The identity an existing row goes on under: its own in a group, its normalised one alone. */
  ghost function RefreshedId(existing: Table, o: Options, e: ModelEntry): Option<RowId> {
    if !Single(existing, e) then Some(e.Identity())
    else if Validate(e).None? then None
    else
      var c := Validate(e).value;
      Some(RowId(Lower(Alias(c.model, o)), Lower(Routing(c.Target()))))
  }

  lemma SingleStored(existing: Table, o: Options, e: ModelEntry)
    requires e in existing && Single(existing, e) && Validate(e).Some?
    ensures StoredSingle(existing, SaveTable(Singles(existing, existing), o), RefreshedId(existing, o, e).value).Some?
  {
    hide Lower, Routing, Validate, Alias, SaveTable, Single, FilterMap, ModelEntry.Identity;
    var singles := Singles(existing, existing);
    SinglesMembers(existing, existing);
    FilterMapMembers(Validate, singles);
    SavedIdentity(singles, o, Validate(e).value);
    var r :| r in SaveTable(singles, o) && r.Identity() == RefreshedId(existing, o, e).value;
    StoredFound(existing, SaveTable(singles, o), r);
  }

  /** No identity is lost: after the rows `seen`, each of them is represented by some row of the table,
      unless its identity belongs to a group, whose own rows represent it. */
  lemma {:induction false} RefreshRepresents(existing: Table, seen: Table, o: Options)
    requires forall e :: e in seen ==> e in existing
    ensures forall e :: e in seen && RefreshedId(existing, o, e).Some? ==>
              var id := RefreshedId(existing, o, e).value;
              HasIdentity(Refreshed(existing, seen, o), id) ||
                  (Single(existing, e) && GroupIdentity(existing, existing, id))
  {
    hide ModelEntry.Identity, ModelEntry.Group, HasIdentity, GroupIdentity, Single, RefreshedId, SaveTable,
        StoredSingle;
    if seen != [] {
      var front, e := seen[..|seen| - 1], seen[|seen| - 1];
      assert seen == front + [e];
      RefreshRepresents(existing, front, o);
      var before, after := Refreshed(existing, front, o), Refreshed(existing, seen, o);
      RefreshGrows(existing, front, e, o);
      if RefreshedId(existing, o, e).Some? { LastRepresented(existing, front, e, o); }
    }
  }

  lemma RefreshGrows(existing: Table, front: Table, e: ModelEntry, o: Options)
    ensures forall id :: HasIdentity(Refreshed(existing, front, o), id) ==>
        HasIdentity(Refreshed(existing, front + [e], o), id)
  {
    hide ModelEntry.Identity, ModelEntry.Group, HasIdentity, GroupIdentity, Single, Refreshed;
    var before := Refreshed(existing, front, o);
    RefreshStep(existing, front, e, o);
    RowAdded(before, e);
    if Single(existing, e) && Refreshed(existing, front + [e], o) != before {
      var r: ModelEntry :| Refreshed(existing, front + [e], o) == before + [r];
      RowAdded(before, r);
    }
  }

  lemma LastRepresented(existing: Table, front: Table, e: ModelEntry, o: Options)
    requires e in existing && RefreshedId(existing, o, e).Some?
    ensures var id := RefreshedId(existing, o, e).value;
            HasIdentity(Refreshed(existing, front + [e], o), id) ||
                (Single(existing, e) && GroupIdentity(existing, existing, id))
  {
    hide ModelEntry.Identity, ModelEntry.Group, HasIdentity, GroupIdentity, Single, SaveTable, StoredSingle, Validate,
        Alias, Lower, Routing;
    assert (front + [e])[..|front|] == front;
    var before := Refreshed(existing, front, o);
    if !Single(existing, e) {
      RowAdded(before, e);
    } else {
      OneRowIdentity(e, o);
      SingleStored(existing, o, e);
      var id := RefreshedId(existing, o, e).value;
      StoredIdentity(existing, SaveTable(Singles(existing, existing), o), id);
      var row := SingleRow(existing, o, before, e);
      if row.Some? { RowAdded(before, row.value); }
    }
  }

  /** Refresh normalisation keeps every group row in place, gives distinct identities to a table that had
      them, and loses no storable row's identity. */
  lemma RefreshMeaning(existing: Table, o: Options)
    ensures Filter(InGroups(existing), RefreshedTable(existing, o)) == Filter(MultiRow(existing), existing)
    ensures DistinctIdentities(existing) ==> DistinctIdentities(RefreshedTable(existing, o))
    ensures forall e :: e in existing && RefreshedId(existing, o, e).Some? ==>
              HasIdentity(RefreshedTable(existing, o), RefreshedId(existing, o, e).value)
  {
    hide ModelEntry.Identity, ModelEntry.Group, Single, RefreshedId, Refreshed;
    RefreshKeepsGroupRows(existing, o);
    if DistinctIdentities(existing) { RefreshDistinct(existing, existing, o); }
    RefreshRepresents(existing, existing, o);
    forall e | e in existing && RefreshedId(existing, o, e).Some?
      ensures HasIdentity(RefreshedTable(existing, o), RefreshedId(existing, o, e).value)
    {
      var id := RefreshedId(existing, o, e).value;
      if GroupIdentity(existing, existing, id) {
        var g :| g in existing && !Single(existing, g) && g.Identity() == id;
        FilterMembers(MultiRow(existing), existing);
        FilterMembers(InGroups(existing), RefreshedTable(existing, o));
        assert g in Filter(MultiRow(existing), existing);
      }
    }
  }

  // ---- what single rows turn into ------------------------------------------------------------

  /** Row `k` is the last of a multi-row group. */
  ghost predicate LastOfGroup(existing: Table, seen: Table, group: string, k: nat) {
    && k < |seen| && !Single(existing, seen[k]) && Lower(seen[k].model) == group
    && forall j :: k < j < |seen| ==> Single(existing, seen[j]) || Lower(seen[j].model) != group
  }

  lemma {:induction false} SpellingTells(existing: Table, seen: Table, group: string)
    ensures (forall k: nat :: !LastOfGroup(existing, seen, group, k)) ==> GroupSpelling(existing, seen, group) == ""
    ensures forall k: nat :: LastOfGroup(existing, seen, group, k) ==>
      GroupSpelling(existing, seen, group) == seen[k].model
  {
    hide Single, Lower;
    if seen != [] {
      var front, n := seen[..|seen| - 1], |seen| - 1;
      assert forall i :: 0 <= i < n ==> front[i] == seen[i];
      SpellingTells(existing, front, group);
      if !Single(existing, seen[n]) && seen[n].Group() == group {
        assert LastOfGroup(existing, seen, group, n);
      } else {
        forall k: nat ensures LastOfGroup(existing, seen, group, k) <==> LastOfGroup(existing, front, group, k) {}
      }
    }
  }

  /** `r` is the saved row `q`, under the spelling of the configured group it joins if there is one. */
  ghost predicate Joins(existing: Table, q: ModelEntry, r: ModelEntry) {
    && r == q.(model := r.model)
    && (forall k: nat :: LastOfGroup(existing, existing, Lower(q.model), k) && existing[k].model != "" ==>
          r.model == existing[k].model)
    && ((forall k: nat :: !LastOfGroup(existing, existing, Lower(q.model), k)) ==> r.model == q.model)
  }

  lemma RespellJoins(existing: Table, q: ModelEntry)
    ensures Joins(existing, q, Respell(existing, q))
  {
    hide LastOfGroup, GroupSpelling, Lower;
    SpellingTells(existing, existing, Lower(q.model));
  }

  lemma {:induction false} StoredFrom(existing: Table, saved: Table, id: RowId)
    ensures StoredSingle(existing, saved, id).Some? ==>
      exists q :: q in saved && StoredSingle(existing, saved, id).value == Respell(existing, q)
  {
    hide Respell, ModelEntry.Identity;
    if saved != [] {
      StoredFrom(existing, saved[..|saved| - 1], id);
      assert saved == saved[..|saved| - 1] + [saved[|saved| - 1]];
    }
  }

  /** Every row a refresh leaves is a row of a configured multi-row group, as it was, or what save normalisation makes
      of the single rows, under the spelling of the group it joins. */
  lemma {:induction false} RefreshedTell(existing: Table, seen: Table, o: Options)
    requires forall e :: e in seen ==> e in existing
    ensures forall r :: r in Refreshed(existing, seen, o) ==>
      || (r in existing && !Single(existing, r))
      || exists q :: q in SaveTable(Singles(existing, existing), o) && Joins(existing, q, r)
  {
    hide Single, Joins, SaveTable, StoredSingle, GroupIdentity, HasIdentity, ModelEntry.Identity, Respell, Singles;
    if seen != [] {
      var front, e := seen[..|seen| - 1], seen[|seen| - 1];
      assert seen == front + [e];
      RefreshedTell(existing, front, o);
      var before := Refreshed(existing, front, o);
      var row := SingleRow(existing, o, before, e);
      if Single(existing, e) && row.Some? {
        StoredFrom(existing, SaveTable(Singles(existing, existing), o), SaveTable([e], o)[0].Identity());
        var q :| q in SaveTable(Singles(existing, existing), o) && row.value == Respell(existing, q);
        RespellJoins(existing, q);
      }
    }
  }
}
