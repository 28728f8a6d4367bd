/** Adding discovered rows to a table, and normalising the rows a table already has. */
module ModelRefresh {
  import opened Names
  import opened ModelTable
  import opened Seqs
  import opened ModelSave
  import opened ModelReplace
  import opened ModelVariants

  // ---- merging -------------------------------------------------------------------------------

  predicate Mentions(r: ModelEntry, group: string) {
    r.Group() == group || (r.redirect != "" && Lower(r.redirect) == group)
  }

  /** An existing row carries this case-folded name, or redirects to it. */
  predicate Configured(t: Table, group: string) {
    exists r :: r in t && Mentions(r, group)
  }

  predicate HasIdentity(t: Table, id: RowId) {
    exists r :: r in t && r.Identity() == id
  }

  function Merged(existing: Table, fetched: Table): Table {
    if fetched == [] then existing
    else
      var t, e := Merged(existing, fetched[..|fetched| - 1]), fetched[|fetched| - 1];
      if Configured(existing, e.Group()) || HasIdentity(t, e.Identity()) then t else t + [e]
  }

  method MergeModelEntries(cfg: Config, fetched: Table) returns (added: nat, changed: bool)
    modifies cfg
    ensures cfg.entries == Merged(old(cfg.entries), fetched)
    ensures added == |cfg.entries| - |old(cfg.entries)|
    ensures changed <==> cfg.entries != old(cfg.entries)
  {
    hide Lower, Routing, ModelEntry.Identity, Configured, HasIdentity;
    var existing := cfg.entries;
    var configured: set<string> := {};
    var seen: set<RowId> := {};
    NothingThere();
    for i := 0 to |existing|
      invariant cfg.entries == existing
      invariant forall g :: g in configured <==> Configured(existing[..i], g)
      invariant forall id :: id in seen <==> HasIdentity(existing[..i], id)
    {
      assert existing[..i + 1] == existing[..i] + [existing[i]];
      var e := existing[i];
      RowAdded(existing[..i], e);
      configured := configured + {e.Group()};
      if e.redirect != "" {
        configured := configured + {Lower(e.redirect)};
      }
      seen := seen + {e.Identity()};
    }
    assert existing[..|existing|] == existing;
    added := 0;
    for i := 0 to |fetched|
      invariant cfg.entries == Merged(existing, fetched[..i])
      invariant |cfg.entries| == |existing| + added
      invariant forall id :: id in seen <==> HasIdentity(cfg.entries, id)
      invariant added == 0 ==> cfg.entries == existing
    {
      assert fetched[..i + 1][..i] == fetched[..i];
      var e := fetched[i];
      if e.Group() in configured || e.Identity() in seen {
        continue;
      }
      RowAdded(cfg.entries, e);
      cfg.entries := cfg.entries + [e];
      seen := seen + {e.Identity()};
      added := added + 1;
    }
    assert fetched[..|fetched|] == fetched;
    changed := added > 0;
  }

  lemma NothingThere()
    ensures forall g :: !Configured([], g)
    ensures forall id :: !HasIdentity([], id)
  {
  }

  lemma RowAdded(t: Table, e: ModelEntry)
    ensures forall g :: Configured(t + [e], g) <==> Configured(t, g) || Mentions(e, g)
    ensures forall id :: HasIdentity(t + [e], id) <==> HasIdentity(t, id) || e.Identity() == id
  {
    hide Mentions, ModelEntry.Identity;
    assert e in t + [e];
    forall g ensures Configured(t + [e], g) <==> Configured(t, g) || Mentions(e, g) {}
    forall id ensures HasIdentity(t + [e], id) <==> HasIdentity(t, id) || e.Identity() == id {}
  }

  /** Merging keeps the table as a prefix and appends only discovered rows whose name no existing row
      carries or redirects to; every such discovered row ends up represented. */
  lemma {:induction false} MergeMeaning(existing: Table, fetched: Table)
    ensures existing <= Merged(existing, fetched)
    ensures forall k :: |existing| <= k < |Merged(existing, fetched)| ==>
                          Merged(existing, fetched)[k] in fetched &&
                              !Configured(existing, Merged(existing, fetched)[k].Group())
    ensures forall e :: e in fetched ==>
        Configured(existing, e.Group()) || HasIdentity(Merged(existing, fetched), e.Identity())
    ensures DistinctIdentities(existing) ==> DistinctIdentities(Merged(existing, fetched))
  {
    hide Lower, Routing, ModelEntry.Identity, Configured, HasIdentity, ModelEntry.Group;
    if fetched != [] {
      var front, e := fetched[..|fetched| - 1], fetched[|fetched| - 1];
      assert fetched == front + [e];
      MergeMeaning(existing, front);
      var t := Merged(existing, front);
      RowAdded(t, e);
      if !HasIdentity(t, e.Identity()) { NoSuchIdentity(t, e.Identity()); }
    }
  }

  lemma NoSuchIdentity(t: Table, id: RowId)
    requires !HasIdentity(t, id)
    ensures forall i :: 0 <= i < |t| ==> t[i].Identity() != id
  {
    hide ModelEntry.Identity;
    assert forall i :: 0 <= i < |t| ==> t[i] in t;
  }

  lemma {:induction false} NothingToMerge(t: Table, fetched: Table)
    requires forall e :: e in fetched ==> Configured(t, e.Group())
    ensures Merged(t, fetched) == t
  {
    hide Configured, HasIdentity, ModelEntry.Identity, ModelEntry.Group;
    if fetched != [] {
      assert fetched == fetched[..|fetched| - 1] + [fetched[|fetched| - 1]];
      NothingToMerge(t, fetched[..|fetched| - 1]);
    }
  }

  /** Merging the same discovery twice adds nothing the second time. */
  lemma MergeTwice(existing: Table, fetched: Table)
    ensures Merged(Merged(existing, fetched), fetched) == Merged(existing, fetched)
  {
    hide Lower, Routing, Merged;
    var t := Merged(existing, fetched);
    MergeMeaning(existing, fetched);
    forall e | e in fetched ensures Configured(t, e.Group()) {
      if Configured(existing, e.Group()) {
        var r :| r in existing && Mentions(r, e.Group());
        assert r in t;
      } else {
        var r :| r in t && r.Identity() == e.Identity();
        assert Mentions(r, e.Group());
      }
    }
    NothingToMerge(t, fetched);
  }

  // ---- normalising the existing rows ---------------------------------------------------------

  predicate Single(existing: Table, e: ModelEntry) {
    CountGroup(existing, e.Group()) == 1
  }

  function Singles(existing: Table, seen: Table): Table {
    if seen == [] then []
    else
      Singles(existing, seen[..|seen| - 1]) +
      if Single(existing, seen[|seen| - 1]) then [seen[|seen| - 1]] else []
  }

  /** The name of the last row of a multi-row group, or "" when there is none. */
  function GroupSpelling(existing: Table, seen: Table, group: string): string {
    if seen == [] then ""
    else
      var e := seen[|seen| - 1];
      if !Single(existing, e) && e.Group() == group then e.model
      else GroupSpelling(existing, seen[..|seen| - 1], group)
  }

  predicate GroupIdentity(existing: Table, seen: Table, id: RowId) {
    exists e :: e in seen && !Single(existing, e) && e.Identity() == id
  }

  /** A normalised single row under the spelling of the group it joins. */
  function Respell(existing: Table, r: ModelEntry): ModelEntry {
    var spelling := GroupSpelling(existing, existing, r.Group());
    if spelling == "" then r else r.(model := spelling)
  }

  /** The respelled row stored for an identity: the last one wins. */
  function StoredSingle(existing: Table, saved: Table, id: RowId): Option<ModelEntry> {
    if saved == [] then None
    else
      var r := Respell(existing, saved[|saved| - 1]);
      if r.Identity() == id then Some(r) else StoredSingle(existing, saved[..|saved| - 1], id)
  }

  /** The row a single row turns into after the rows `before` it, if it is kept. */
  function SingleRow(existing: Table, o: Options, before: Table, e: ModelEntry): Option<ModelEntry> {
    var one := SaveTable([e], o);
    if one == [] || GroupIdentity(existing, existing, one[0].Identity()) || HasIdentity(before, one[0].Identity())
        then None
    else StoredSingle(existing, SaveTable(Singles(existing, existing), o), one[0].Identity())
  }

  function Refreshed(existing: Table, seen: Table, o: Options): Table {
    if seen == [] then []
    else
      var before, e := Refreshed(existing, seen[..|seen| - 1], o), seen[|seen| - 1];
      if !Single(existing, e) then before + [e]
      else
        var row := SingleRow(existing, o, before, e);
        if row.Some? then before + [row.value] else before
  }

  /** The table of existing rows after refresh normalisation. */
  function RefreshedTable(existing: Table, o: Options): Table {
    Refreshed(existing, existing, o)
  }

  ghost predicate Classified(existing: Table, seen: Table, singles: Table, spelling: map<string, string>,
                             ids: set<RowId>) {
    && singles == Singles(existing, seen)
    && (forall g :: (if g in spelling then spelling[g] else "") == GroupSpelling(existing, seen, g))
    && (forall id :: id in ids <==> GroupIdentity(existing, seen, id))
  }

  lemma NothingClassified(existing: Table)
    ensures Classified(existing, [], [], map[], {})
  {
  }

  lemma GroupIdentityStep(existing: Table, seen: Table, e: ModelEntry, id: RowId)
    ensures GroupIdentity(existing, seen + [e], id) <==>
            GroupIdentity(existing, seen, id) || (!Single(existing, e) && e.Identity() == id)
  {
    hide ModelEntry.Identity, Single;
    assert e in seen + [e];
  }

  lemma ClassifiedStep(existing: Table, seen: Table, e: ModelEntry, singles: Table, spelling: map<string, string>,
                       ids: set<RowId>)
    requires Classified(existing, seen, singles, spelling, ids)
    ensures if Single(existing, e) then Classified(existing, seen + [e], singles + [e], spelling, ids)
            else Classified(existing, seen + [e], singles, spelling[e.Group() := e.model], ids + {e.Identity()})
  {
    hide ModelEntry.Identity, ModelEntry.Group, Single;
    assert (seen + [e])[..|seen|] == seen;
    assert singles + [] == singles;
    forall id ensures GroupIdentity(existing, seen + [e], id) <==>
                      GroupIdentity(existing, seen, id) || (!Single(existing, e) && e.Identity() == id) {
      GroupIdentityStep(existing, seen, e, id);
    }
    hide GroupIdentity;
    forall g ensures GroupSpelling(existing, seen + [e], g) ==
                     if !Single(existing, e) && e.Group() == g then e.model else GroupSpelling(existing, seen, g) {}
  }

  method Classify(existing: Table)
    returns (counts: map<string, nat>, singles: Table, spelling: map<string, string>, ids: set<RowId>)
    ensures forall g :: (if g in counts then counts[g] else 0) == CountGroup(existing, g)
    ensures Classified(existing, existing, singles, spelling, ids)
  {
    hide ModelEntry.Identity, ModelEntry.Group, Classified, CountGroup;
    counts := CountGroups(existing);
    singles, spelling, ids := [], map[], {};
    NothingClassified(existing);
    for i := 0 to |existing|
      invariant Classified(existing, existing[..i], singles, spelling, ids)
    {
      assert existing[..i + 1] == existing[..i] + [existing[i]];
      var e := existing[i];
      var key := e.Group();
      ClassifiedStep(existing, existing[..i], e, singles, spelling, ids);
      if key in counts && counts[key] == 1 {
        singles := singles + [e];
      } else {
        spelling := spelling[key := e.model];
        ids := ids + {e.Identity()};
      }
    }
    assert existing[..|existing|] == existing;
  }

  method StoreSingles(existing: Table, o: Options, singles: Table, spelling: map<string, string>)
    returns (stored: map<RowId, ModelEntry>)
    requires forall g :: (if g in spelling then spelling[g] else "") == GroupSpelling(existing, existing, g)
    ensures forall id ::
        (if id in stored then Some(stored[id]) else None) == StoredSingle(existing, SaveTable(singles, o), id)
  {
    hide ModelEntry.Identity, ModelEntry.Group, GroupSpelling, SaveTable;
    var saved := NormalizeForSave(singles, o);
    stored := map[];
    for i := 0 to |saved|
      invariant forall id :: (if id in stored then Some(stored[id]) else None) == StoredSingle(existing, saved[..i], id)
    {
      assert saved[..i + 1][..i] == saved[..i];
      var e := saved[i];
      var group := e.Group();
      assert (if group in spelling then spelling[group] else "") == GroupSpelling(existing, existing, group);
      if group in spelling && spelling[group] != "" {
        e := e.(model := spelling[group]);
      }
      assert e == Respell(existing, saved[i]);
      var id := e.Identity();
      stored := stored[id := e];
    }
    assert saved[..|saved|] == saved;
  }

  lemma GroupRowIdentity(existing: Table, e: ModelEntry)
    requires e in existing && !Single(existing, e)
    ensures GroupIdentity(existing, existing, e.Identity())
  {
  }

  lemma {:induction false} StoredIdentity(existing: Table, saved: Table, id: RowId)
    ensures StoredSingle(existing, saved, id).Some? ==> StoredSingle(existing, saved, id).value.Identity() == id
    ensures StoredSingle(existing, saved, id).Some? ==> exists r ::
        r in saved && StoredSingle(existing, saved, id).value == Respell(existing, r)
  {
    hide ModelEntry.Identity, Respell;
    if saved != [] {
      assert saved == saved[..|saved| - 1] + [saved[|saved| - 1]];
      StoredIdentity(existing, saved[..|saved| - 1], id);
    }
  }

  method NormalizeExistingForRefresh(existing: Table, o: Options) returns (result: Table)
    ensures result == RefreshedTable(existing, o)
  {
    hide ModelEntry.Identity, ModelEntry.Group, GroupSpelling, SaveTable, CountGroup, StoredSingle, HasIdentity,
        GroupIdentity;
    var counts, singles, spelling, ids := Classify(existing);
    var stored := StoreSingles(existing, o, singles, spelling);
    result := [];
    var seen: set<RowId> := {};
    NothingThere();
    for i := 0 to |existing|
      invariant result == Refreshed(existing, existing[..i], o)
      invariant forall id :: id !in ids ==> (id in seen <==> HasIdentity(result, id))
    {
      assert existing[..i + 1][..i] == existing[..i];
      var e := existing[i];
      var key := e.Group();
      if !(key in counts && counts[key] == 1) {
        RowAdded(result, e);
        GroupRowIdentity(existing, e);
        result := result + [e];
        continue;
      }
      var one := NormalizeForSave([e], o);
      if one == [] {
        continue;
      }
      var id := one[0].Identity();
      if id in ids || id in seen {
        continue;
      }
      if id in stored {
        StoredIdentity(existing, SaveTable(singles, o), id);
        RowAdded(result, stored[id]);
        result := result + [stored[id]];
        seen := seen + {id};
      }
    }
    assert existing[..|existing|] == existing;
  }
}
