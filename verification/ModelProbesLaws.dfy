/** Which rows a replacement refresh keeps for the keys it could not probe. */
module ModelProbesLaws {
  import opened Names
  import opened ModelTable
  import opened Seqs
  import opened ModelSave
  import opened ModelVariants
  import opened ModelVariantsLaws
  import opened ModelReplace
  import opened ModelReplaceLaws
  import opened ModelRefresh
  import opened ModelProbes

  // ---- candidates ----------------------------------------------------------------------------

  /** A key that is not empty and whose probe reported an error. */
  ghost predicate CouldNotBeProbed(probes: seq<Probe>, key: ApiKey) {
    !key.scope.empty && exists p :: p in probes && p.index == key.index && TrimSpace(p.error) != ""
  }

  /** The rows looked at are exactly those some key that could not be probed may use. */
  lemma CandidatesExactly(keys: seq<ApiKey>, table: Table, probes: seq<Probe>, e: ModelEntry)
    requires forall k, a :: k in keys && a in k.scope.allowed ==> Trimmed(a)
    requires Routing(e.model) !in {"", "*"}
    ensures e in Candidates(keys, table, probes) <==>
      e in table && exists key :: key in keys && CouldNotBeProbed(probes, key) && AllowsModel(key.scope, e.model)
  {
    hide Filter, Routing, Lower, TrimSpace, AllowsModel, Unprobed, CouldNotBeProbed;
    FilterMembers((x: ModelEntry) => Keeps(keys, probes, x), table);
    forall key | key in keys
      ensures Unprobed(probes, key) == CouldNotBeProbed(probes, key) { SameUnprobed(probes, key); }
    if Keeps(keys, probes, e) {
      var key: ApiKey :| key in keys && Unprobed(probes, key) &&
                         (key.scope.allowed == [] || NamedBy(probes, key, Lower(Routing(e.model))));
      UsableBy(probes, key, e);
    }
    forall key | key in keys && Unprobed(probes, key) && AllowsModel(key.scope, e.model)
      ensures Keeps(keys, probes, e)
    {
      UsableBy(probes, key, e);
      if key.scope.allowed != [] {
        assert NamedBy(probes, key, Lower(Routing(e.model)));
      }
    }
  }

  lemma SameUnprobed(probes: seq<Probe>, key: ApiKey)
    ensures Unprobed(probes, key) <==> CouldNotBeProbed(probes, key)
  {
    hide TrimSpace;
  }

  lemma UsableBy(probes: seq<Probe>, key: ApiKey, e: ModelEntry)
    requires forall a :: a in key.scope.allowed ==> Trimmed(a)
    requires Unprobed(probes, key) && Routing(e.model) !in {"", "*"}
    ensures AllowsModel(key.scope, e.model) <==>
      key.scope.allowed == [] || NamedBy(probes, key, Lower(Routing(e.model)))
  {
    hide Routing, Lower, TrimSpace, FailedIndex;
    forall a | a in key.scope.allowed ensures AllowedKey(a) == Lower(Routing(a)) {
      assert Trimmed(Routing(a));
    }
  }

  // ---- retained rows -------------------------------------------------------------------------

  predicate Ascending(at: seq<nat>) {
    forall i, j :: 0 <= i < j < |at| ==> at[i] < at[j]
  }

  /** Row `k` is the first of `rows` with its identity. */
  predicate FirstRow(rows: Table, k: nat) {
    k < |rows| && forall j :: 0 <= j < k ==> rows[j].Identity() != rows[k].Identity()
  }

  predicate New(rows: Table, fetched: Table, i: nat) {
    FirstRow(rows, i) && forall f :: f in fetched ==> f.Identity() != rows[i].Identity()
  }

  /** `kept` are the rows at the places `at`, which are those of the first row of each identity not discovered. */
  ghost predicate Picks(rows: Table, fetched: Table, kept: Table, at: seq<nat>) {
    && |at| == |kept| && Ascending(at)
    && (forall k :: 0 <= k < |at| ==> at[k] < |rows| && kept[k] == rows[at[k]])
    && (forall i: nat :: i in at <==> New(rows, fetched, i))
  }

  /** The retained rows are, in their order, the first row of each identity that was not discovered. */
  lemma {:induction false} UnlistedExactly(rows: Table, fetched: Table) returns (at: seq<nat>)
    ensures Picks(rows, fetched, Unlisted(rows, fetched), at)
  {
    hide ModelEntry.Identity, Picks, HasIdentity;
    if rows == [] {
      at := [];
      assert Picks(rows, fetched, [], []) by { NothingPicked(rows, fetched); }
    } else {
      var front, e := rows[..|rows| - 1], rows[|rows| - 1];
      assert rows == front + [e];
      var before := Unlisted(front, fetched);
      at := UnlistedExactly(front, fetched);
      PicksStep(front, e, fetched, before, at);
      if !HasIdentity(fetched, e.Identity()) && !HasIdentity(before, e.Identity()) { at := at + [|front|]; }
    }
  }

  lemma NothingPicked(rows: Table, fetched: Table)
    requires rows == []
    ensures Picks(rows, fetched, [], [])
  {
  }

  lemma PicksStep(front: Table, e: ModelEntry, fetched: Table, before: Table, at: seq<nat>)
    requires Picks(front, fetched, before, at)
    ensures if HasIdentity(fetched, e.Identity()) || HasIdentity(before, e.Identity())
            then Picks(front + [e], fetched, before, at)
            else Picks(front + [e], fetched, before + [e], at + [|front|])
  {
    hide ModelEntry.Identity, HasIdentity, New;
    var known := HasIdentity(fetched, e.Identity()) || HasIdentity(before, e.Identity());
    assert New(front + [e], fetched, |front|) <==> !known by {
      KnownBefore(front, fetched, before, at, e.Identity());
      LastIsNew(front, e, fetched);
    }
    NewBounds(front, e, fetched);
    PicksMore(front, e, fetched, before, at, known);
  }

  lemma PicksMore(front: Table, e: ModelEntry, fetched: Table, before: Table, at: seq<nat>, known: bool)
    requires Picks(front, fetched, before, at)
    requires New(front + [e], fetched, |front|) <==> !known
    requires forall i: nat | i < |front| :: New(front + [e], fetched, i) <==> New(front, fetched, i)
    requires forall i: nat :: New(front, fetched, i) ==> i < |front|
    requires forall i: nat :: New(front + [e], fetched, i) ==> i <= |front|
    ensures Picks(front + [e], fetched, if known then before else before + [e], if known then at else at + [|front|])
  {
    hide New;
    var rows, n := front + [e], |front|;
    forall k | 0 <= k < |at| ensures at[k] in at && at[k] < n {}
    var longer := if known then at else at + [n];
    forall i: nat ensures i in longer <==> New(rows, fetched, i) {
      assert i in longer <==> i in at || (!known && i == n);
    }
  }

  lemma NewBounds(front: Table, e: ModelEntry, fetched: Table)
    ensures forall i: nat | i < |front| :: New(front + [e], fetched, i) <==> New(front, fetched, i)
    ensures forall i: nat :: New(front, fetched, i) ==> i < |front|
    ensures forall i: nat :: New(front + [e], fetched, i) ==> i <= |front|
  {
    hide ModelEntry.Identity;
    assert forall j :: 0 <= j < |front| ==> (front + [e])[j] == front[j];
  }

  lemma LastIsNew(front: Table, e: ModelEntry, fetched: Table)
    ensures New(front + [e], fetched, |front|) <==>
      !HasIdentity(fetched, e.Identity()) && forall j :: 0 <= j < |front| ==> front[j].Identity() != e.Identity()
  {
    hide ModelEntry.Identity;
    var rows := front + [e];
    assert rows[|front|] == e && forall j :: 0 <= j < |front| ==> rows[j] == front[j];
  }

  /** An identity that was not discovered is among the retained rows exactly when it is among the rows. */
  lemma KnownBefore(rows: Table, fetched: Table, kept: Table, at: seq<nat>, id: RowId)
    requires Picks(rows, fetched, kept, at)
    ensures !HasIdentity(fetched, id) ==>
      (HasIdentity(kept, id) <==> exists j :: 0 <= j < |rows| && rows[j].Identity() == id)
  {
    hide ModelEntry.Identity;
    if HasIdentity(kept, id) {
      var r :| r in kept && r.Identity() == id;
      var k :| 0 <= k < |kept| && kept[k] == r;
      assert rows[at[k]].Identity() == id;
    }
    if !HasIdentity(fetched, id) && exists j :: 0 <= j < |rows| && rows[j].Identity() == id {
      var j := FirstOf(rows, id);
      assert New(rows, fetched, j);
      var k :| 0 <= k < |at| && at[k] == j;
      assert kept[k] in kept;
    }
  }

  lemma {:induction false} FirstOf(rows: Table, id: RowId) returns (j: nat)
    requires exists k :: 0 <= k < |rows| && rows[k].Identity() == id
    ensures FirstRow(rows, j) && rows[j].Identity() == id
  {
    hide ModelEntry.Identity;
    j := 0;
    while rows[j].Identity() != id
      invariant j < |rows| && forall i :: 0 <= i < j ==> rows[i].Identity() != id
      decreases |rows| - j
    {
      j := j + 1;
    }
  }

  /** The rows retained in a replacement: new to the discovery, each identity once, all of them from what the
      refresh makes of the candidates, and none of those missing. */
  lemma RetainedTell(keys: seq<ApiKey>, table: Table, fetched: Table, probes: seq<Probe>, o: Options)
    ensures var rows, kept := RefreshedTable(Candidates(keys, table, probes), o),
                              Retained(keys, table, fetched, probes, o);
      && (forall e :: e in kept ==> e in rows && forall f :: f in fetched ==> f.Identity() != e.Identity())
      && DistinctIdentities(kept)
      && (forall e :: e in rows ==> exists r :: r in fetched + kept && r.Identity() == e.Identity())
  {
    hide ModelEntry.Identity, RefreshedTable, Candidates, Unlisted;
    var rows, kept := RefreshedTable(Candidates(keys, table, probes), o), Retained(keys, table, fetched, probes, o);
    var at := UnlistedExactly(rows, fetched);
    forall k | 0 <= k < |at| ensures at[k] in at && New(rows, fetched, at[k]) {}
    forall e | e in rows ensures exists r :: r in fetched + kept && r.Identity() == e.Identity() {
      var i :| 0 <= i < |rows| && rows[i] == e;
      KnownBefore(rows, fetched, kept, at, e.Identity());
      if HasIdentity(fetched, e.Identity()) {
        var r :| r in fetched && r.Identity() == e.Identity();
        assert r in fetched + kept;
      } else {
        var r :| r in kept && r.Identity() == e.Identity();
        assert r in fetched + kept;
      }
    }
  }

  /** When a replacement goes ahead, the identity of every row a key that could not be probed may serve, as the
      refresh normalises it, is in the new table, unless its group is one the channel keeps as configured. */
  lemma RetainedSurvive(keys: seq<ApiKey>, table: Table, fetched: Table, probes: seq<Probe>, o: Options, e: ModelEntry)
    requires ReplacedTable(keys, table, fetched, probes, o).Some? && !NoneFailed(probes)
    requires e in RefreshedTable(Candidates(keys, table, probes), o) && !Protected(table, e.Group())
    ensures exists r :: r in ReplacedTable(keys, table, fetched, probes, o).value && r.Identity() == e.Identity()
  {
    hide ModelEntry.Identity, ModelEntry.Group, RefreshedTable, Candidates, Retained, Replaced, NoneFailed, Protected,
         FirstMoved, ModelNames;
    RetainedTell(keys, table, fetched, probes, o);
    var all := fetched + Retained(keys, table, fetched, probes, o);
    var q :| q in all && q.Identity() == e.Identity();
    IdentityGroup(q, e);
    FreeRowStays(table, all, o, q);
  }

  lemma IdentityGroup(a: ModelEntry, b: ModelEntry)
    requires a.Identity() == b.Identity()
    ensures a.Group() == b.Group()
  {
  }

  /** A row of a replacement outside the protected groups is in the new table, in its state carried over. */
  lemma FreeRowStays(was: Table, rows: Table, o: Options, q: ModelEntry)
    requires q in rows && !Protected(was, q.Group())
    ensures exists r :: r in Replaced(was, rows, o) && SameRow(r, Carried(was, rows, o, q)) &&
                        r.Identity() == q.Identity()
  {
    hide Protected, SameRow, Carried, Replaced, ModelEntry.Identity, ModelEntry.Group;
    var carried, final := CarriedTable(was, rows, o), Replaced(was, rows, o);
    var free := x => Free(was, x);
    ReplacedFreeRows(was, rows, o);
    FilterMembers(free, final);
    FilterMembers(free, carried);
    var k :| 0 <= k < |rows| && rows[k] == q;
    CarriedKeepsState(was, rows, o, q);
    IdentityGroup(carried[k], q);
    assert Free(was, carried[k]) && carried[k] in carried;
    var i :| 0 <= i < |Filter(free, carried)| && Filter(free, carried)[i] == carried[k];
    var r := Filter(free, final)[i];
    assert SameRow(r, carried[k]);
    SameRowFacts(was, r, carried[k]);
    assert r in Filter(free, final);
  }
}
