/** What preserving configured groups guarantees: protected groups survive whole, other rows are untouched,
    and doing it again changes nothing. */
module ModelVariantsLaws {
  import opened Names
  import opened ModelTable
  import opened ModelTableLaws
  import opened Seqs
  import opened ModelVariants

  lemma {:induction false} HasConcat(a: Table, b: Table, group: string)
    ensures Has(a + b, group) == (Has(a, group) || Has(b, group))
  {
    hide ModelEntry.Group, CountGroup;
    if b == [] {
      assert a + b == a;
      NoneInEmpty(group);
    } else {
      var front, last := b[..|b| - 1], b[|b| - 1];
      assert b == front + [last] && a + b == (a + front) + [last];
      HasConcat(a, front, group);
      GroupStep(front, last, group);
      GroupStep(a + front, last, group);
    }
  }

  lemma GroupRowsHas(t: Table, group: string, other: string)
    ensures Has(GroupRows(t, group), other) <==> Has(t, group) && other == group
  {
    hide ModelEntry.Group, GroupRows, CountGroup;
    GroupRowsMembers(t, group);
    GroupRowsMembers(GroupRows(t, group), other);
  }

  lemma SingleHas(e: ModelEntry, group: string)
    ensures Has([e], group) == (e.Group() == group)
  {
    assert [] + [e] == [e];
    GroupStep([], e, group);
    NoneInEmpty(group);
  }

  // ---- which groups each part mentions -------------------------------------------------------

  lemma BlockHas(existing: Table, before: Table, e: ModelEntry, group: string)
    ensures Has(before, group) || Has(Block(existing, before, e), group) <==> Has(before, group) || e.Group() == group
    ensures Has(Block(existing, before, e), group) ==> e.Group() == group
  {
    hide ModelEntry.Group, CountGroup, GroupRows, Protected, Has;
    var key := e.Group();
    NoneInEmpty(group);
    SingleHas(e, group);
    GroupRowsHas(existing, key, group);
    if Protected(existing, key) { ProtectedHas(existing, key); }
  }

  lemma {:induction false} BodyHas(existing: Table, fetched: Table, group: string)
    ensures Has(Body(existing, fetched), group) == Has(fetched, group)
  {
    hide ModelEntry.Group, CountGroup, GroupRows, Protected, Has, Block;
    if fetched != [] {
      var front, last := fetched[..|fetched| - 1], fetched[|fetched| - 1];
      assert fetched == front + [last];
      BodyHas(existing, front, group);
      BlockHas(existing, front, last, group);
      HasConcat(Body(existing, front), Block(existing, front, last), group);
      GroupStep(front, last, group);
    }
  }

  lemma {:induction false} TailHas(existing: Table, seen: Table, fetched: Table, group: string)
    requires forall e :: e in seen ==> e in existing
    ensures Has(Tail(existing, seen, fetched), group) <==>
            Protected(existing, group) && Has(seen, group) && !Has(fetched, group)
  {
    hide ModelEntry.Group, CountGroup, GroupRows, Protected, Has;
    if seen == [] {
      NoneInEmpty(group);
    } else {
      var front, last := seen[..|seen| - 1], seen[|seen| - 1];
      var key := last.Group();
      assert seen == front + [last];
      TailHas(existing, front, fetched, group);
      GroupStep(front, last, group);
      NoneInEmpty(group);
      GroupRowsHas(existing, key, group);
      assert Has(existing, key) by { GroupRowsMembers(existing, key); }
      HasConcat(Tail(existing, front, fetched), GroupRows(existing, key), group);
      HasConcat(Tail(existing, front, fetched), [], group);
    }
  }

  lemma PreserveHas(existing: Table, fetched: Table, group: string)
    ensures Has(Preserve(existing, fetched), group) <==> Has(fetched, group) || Protected(existing, group)
  {
    hide ModelEntry.Group, CountGroup, GroupRows, Protected, Has, Body, Tail;
    BodyHas(existing, fetched, group);
    TailHas(existing, existing, fetched, group);
    HasConcat(Body(existing, fetched), Tail(existing, existing, fetched), group);
    if Protected(existing, group) { ProtectedHas(existing, group); }
  }

  // ---- protected groups are contiguous -------------------------------------------------------

  /** In `t` the rows of `group` are exactly `rows`, side by side. */
  ghost predicate Contiguous(t: Table, group: string, rows: Table) {
    exists left: Table, right: Table :: t == left + rows + right && !Has(left, group) && !Has(right, group)
  }

  lemma ContiguousExtends(t: Table, more: Table, group: string, rows: Table)
    requires Contiguous(t, group, rows) && !Has(more, group)
    ensures Contiguous(t + more, group, rows)
  {
    hide CountGroup, Has;
    var left, right :| t == left + rows + right && !Has(left, group) && !Has(right, group);
    HasConcat(right, more, group);
    assert t + more == left + rows + (right + more);
  }

  lemma ContiguousPrefixed(before: Table, t: Table, group: string, rows: Table)
    requires Contiguous(t, group, rows) && !Has(before, group)
    ensures Contiguous(before + t, group, rows)
  {
    hide CountGroup, Has;
    var left, right :| t == left + rows + right && !Has(left, group) && !Has(right, group);
    HasConcat(before, left, group);
    assert before + t == (before + left) + rows + right;
  }

  lemma ContiguousEnd(before: Table, group: string, rows: Table)
    requires !Has(before, group)
    ensures Contiguous(before + rows, group, rows)
  {
    NoneInEmpty(group);
    assert before + rows == before + rows + [];
  }

  lemma {:induction false} BodyContiguous(existing: Table, fetched: Table, group: string)
    requires Protected(existing, group) && Has(fetched, group)
    ensures Contiguous(Body(existing, fetched), group, GroupRows(existing, group))
  {
    hide ModelEntry.Group, CountGroup, GroupRows, Protected, Has, Contiguous;
    if fetched == [] {
      NoneInEmpty(group);
    } else {
      var front, last := fetched[..|fetched| - 1], fetched[|fetched| - 1];
      assert fetched == front + [last];
      GroupStep(front, last, group);
      var block := Block(existing, front, last);
      if Has(front, group) {
        BodyContiguous(existing, front, group);
        if last.Group() == group {
          NoneInEmpty(group);
        } else {
          BlockHas(existing, front, last, group);
        }
        ContiguousExtends(Body(existing, front), block, group, GroupRows(existing, group));
      } else {
        BodyHas(existing, front, group);
        ContiguousEnd(Body(existing, front), group, GroupRows(existing, group));
      }
    }
  }

  lemma {:induction false} TailContiguous(existing: Table, seen: Table, fetched: Table, group: string)
    requires forall e :: e in seen ==> e in existing
    requires Protected(existing, group) && Has(seen, group) && !Has(fetched, group)
    ensures Contiguous(Tail(existing, seen, fetched), group, GroupRows(existing, group))
  {
    hide ModelEntry.Group, CountGroup, GroupRows, Protected, Has, Contiguous;
    if seen == [] {
      NoneInEmpty(group);
    } else {
      var front, last := seen[..|seen| - 1], seen[|seen| - 1];
      var key := last.Group();
      assert seen == front + [last];
      GroupStep(front, last, group);
      if Has(front, group) {
        TailContiguous(existing, front, fetched, group);
        GroupRowsHas(existing, key, group);
        NoneInEmpty(group);
        var more := if Protected(existing, key) && !Has(front, key) && !Has(fetched, key) then GroupRows(existing, key)
            else [];
        ContiguousExtends(Tail(existing, front, fetched), more, group, GroupRows(existing, group));
      } else {
        TailHas(existing, front, fetched, group);
        ContiguousEnd(Tail(existing, front, fetched), group, GroupRows(existing, group));
      }
    }
  }

  // ---- the other rows ------------------------------------------------------------------------

  predicate Free(existing: Table, e: ModelEntry) {
    !Protected(existing, e.Group())
  }

  lemma NoneFree(existing: Table, group: string)
    requires Protected(existing, group)
    ensures Filter(e => Free(existing, e), GroupRows(existing, group)) == []
  {
    hide ModelEntry.Group, CountGroup, Protected;
    var rows := Filter(e => Free(existing, e), GroupRows(existing, group));
    FilterMembers(e => Free(existing, e), GroupRows(existing, group));
    GroupRowsMembers(existing, group);
    assert rows == [] || rows[0] in rows;
  }

  lemma {:induction false} BodyFree(existing: Table, fetched: Table)
    ensures Filter(e => Free(existing, e), Body(existing, fetched)) == Filter(e => Free(existing, e), fetched)
  {
    hide ModelEntry.Group, CountGroup, Protected, GroupRows, Has;
    if fetched != [] {
      var front, last := fetched[..|fetched| - 1], fetched[|fetched| - 1];
      var free := (e: ModelEntry) => Free(existing, e);
      BodyFree(existing, front);
      FilterAppend(free, Body(existing, front), Block(existing, front, last));
      assert fetched == front + [last];
      FilterAppend(free, front, [last]);
      if !Free(existing, last) {
        NoneFree(existing, last.Group());
        assert Filter(free, [last]) == Filter(free, [last][..0]) + [];
      }
    }
  }

  lemma {:induction false} TailFree(existing: Table, seen: Table, fetched: Table)
    ensures Filter(e => Free(existing, e), Tail(existing, seen, fetched)) == []
  {
    hide ModelEntry.Group, CountGroup, Protected, GroupRows, Has, Free;
    if seen != [] {
      var front, key := seen[..|seen| - 1], seen[|seen| - 1].Group();
      var free := (e: ModelEntry) => Free(existing, e);
      TailFree(existing, front, fetched);
      if Protected(existing, key) && !Has(front, key) && !Has(fetched, key) {
        NoneFree(existing, key);
        FilterAppend(free, Tail(existing, front, fetched), GroupRows(existing, key));
      } else {
        assert Tail(existing, front, fetched) + [] == Tail(existing, front, fetched);
      }
    }
  }

  /** Every protected group ends up side by side with its configured rows in their order, and nothing
      else carries its name; the rows of no protected group are those of `fetched`, in order. */
  lemma PreserveKeepsGroups(existing: Table, fetched: Table)
    ensures forall g :: Protected(existing, g) ==> Contiguous(Preserve(existing, fetched), g, GroupRows(existing, g))
    ensures Filter(e => Free(existing, e), Preserve(existing, fetched)) == Filter(e => Free(existing, e), fetched)
  {
    hide ModelEntry.Group, CountGroup, Protected, GroupRows, Has, Free, Body, Tail, Contiguous;
    var body, tail := Body(existing, fetched), Tail(existing, existing, fetched);
    forall g | Protected(existing, g) ensures Contiguous(body + tail, g, GroupRows(existing, g)) {
      ProtectedHas(existing, g);
      TailHas(existing, existing, fetched, g);
      BodyHas(existing, fetched, g);
      if Has(fetched, g) {
        BodyContiguous(existing, fetched, g);
        ContiguousExtends(body, tail, g, GroupRows(existing, g));
      } else {
        TailContiguous(existing, existing, fetched, g);
        ContiguousPrefixed(body, tail, g, GroupRows(existing, g));
      }
    }
    BodyFree(existing, fetched);
    TailFree(existing, existing, fetched);
    FilterAppend(e => Free(existing, e), body, tail);
  }

  // ---- idempotence ---------------------------------------------------------------------------

  lemma BodyStep(existing: Table, t: Table, e: ModelEntry)
    ensures Body(existing, t + [e]) == Body(existing, t) + Block(existing, t, e)
  {
    assert (t + [e])[..|t|] == t;
  }

  /** Rows of a protected group, appended to rows without it, contribute the whole group once. */
  lemma {:induction false} BodyAppendGroup(existing: Table, t: Table, group: string, rows: Table)
    requires Protected(existing, group) && !Has(t, group)
    requires forall e :: e in rows ==> e.Group() == group
    ensures Body(existing, t + rows) == Body(existing, t) + if rows == [] then [] else GroupRows(existing, group)
  {
    hide ModelEntry.Group, CountGroup, Protected, GroupRows, Has, Body;
    if rows == [] {
      assert t + rows == t;
    } else {
      var front, last := rows[..|rows| - 1], rows[|rows| - 1];
      assert rows == front + [last] && t + rows == (t + front) + [last];
      BodyAppendGroup(existing, t, group, front);
      BodyStep(existing, t + front, last);
      HasConcat(t, front, group);
      GroupRowsMembers(front, group);
      if front != [] { assert front[0] in front; }
    }
  }

  lemma {:induction false} BodyTwice(existing: Table, fetched: Table)
    ensures Body(existing, Body(existing, fetched)) == Body(existing, fetched)
  {
    hide ModelEntry.Group, CountGroup, Protected, GroupRows, Has;
    if fetched != [] {
      var front, last := fetched[..|fetched| - 1], fetched[|fetched| - 1];
      var b, key := Body(existing, front), last.Group();
      BodyTwice(existing, front);
      BodyHas(existing, front, key);
      BodyAppendBlock(existing, b, front, last);
    }
  }

  lemma BodyAppendBlock(existing: Table, b: Table, before: Table, last: ModelEntry)
    requires Body(existing, b) == b && Has(b, last.Group()) == Has(before, last.Group())
    ensures Body(existing, b + Block(existing, before, last)) == b + Block(existing, before, last)
  {
    hide ModelEntry.Group, CountGroup, Protected, GroupRows, Has, Body;
    var key := last.Group();
    if !Protected(existing, key) {
      BodyStep(existing, b, last);
    } else if Has(before, key) {
      assert b + [] == b;
    } else {
      AppendWholeGroup(existing, b, key);
    }
  }

  lemma AppendWholeGroup(existing: Table, b: Table, group: string)
    requires Body(existing, b) == b && Protected(existing, group) && !Has(b, group)
    ensures Body(existing, b + GroupRows(existing, group)) == b + GroupRows(existing, group)
  {
    hide ModelEntry.Group, Protected, Body;
    GroupRowsMembers(existing, group);
    ProtectedHas(existing, group);
    BodyAppendGroup(existing, b, group, GroupRows(existing, group));
  }

  lemma {:induction false} BodyOfTail(existing: Table, body: Table, seen: Table, fetched: Table)
    requires forall e :: e in seen ==> e in existing
    requires Body(existing, body) == body && forall g :: Has(body, g) == Has(fetched, g)
    ensures Body(existing, body + Tail(existing, seen, fetched)) == body + Tail(existing, seen, fetched)
  {
    hide ModelEntry.Group, CountGroup, Protected, GroupRows, Has, Body;
    if seen == [] {
      assert body + [] == body;
    } else {
      var front, key := seen[..|seen| - 1], seen[|seen| - 1].Group();
      var b := body + Tail(existing, front, fetched);
      BodyOfTail(existing, body, front, fetched);
      if Protected(existing, key) && !Has(front, key) && !Has(fetched, key) {
        TailHas(existing, front, fetched, key);
        HasConcat(body, Tail(existing, front, fetched), key);
        AppendWholeGroup(existing, b, key);
        assert body + Tail(existing, seen, fetched) == b + GroupRows(existing, key);
      } else {
        assert Tail(existing, front, fetched) + [] == Tail(existing, front, fetched);
      }
    }
  }

  lemma {:induction false} TailNothing(existing: Table, seen: Table, fetched: Table)
    requires forall g :: Protected(existing, g) ==> Has(fetched, g)
    ensures Tail(existing, seen, fetched) == []
  {
    hide ModelEntry.Group, CountGroup, Protected, GroupRows, Has;
    if seen != [] {
      TailNothing(existing, seen[..|seen| - 1], fetched);
    }
  }

  lemma PreserveIdempotent(existing: Table, fetched: Table)
    ensures Preserve(existing, Preserve(existing, fetched)) == Preserve(existing, fetched)
  {
    hide ModelEntry.Group, CountGroup, Protected, GroupRows, Has, Body, Tail, Preserve;
    var body, once := Body(existing, fetched), Preserve(existing, fetched);
    assert once == body + Tail(existing, existing, fetched) by { PreserveParts(existing, fetched); }
    BodyTwice(existing, fetched);
    forall g ensures Has(body, g) == Has(fetched, g) { BodyHas(existing, fetched, g); }
    BodyOfTail(existing, body, existing, fetched);
    forall g | Protected(existing, g) ensures Has(once, g) { PreserveHas(existing, fetched, g); }
    TailNothing(existing, existing, once);
    PreserveParts(existing, once);
    assert once + [] == once;
  }

  lemma PreserveParts(existing: Table, fetched: Table)
    ensures Preserve(existing, fetched) == Body(existing, fetched) + Tail(existing, existing, fetched)
  {
  }

  // ---- which groups are protected ------------------------------------------------------------

  /** Two places of the table hold rows of the group. */
  ghost predicate SeveralRowsOf(t: Table, group: string) {
    exists i, j :: 0 <= i < j < |t| && Lower(t[i].model) == group && Lower(t[j].model) == group
  }

  /** Row `k` is the first that serves the redirect of a row in a group of several, and redirects again. */
  ghost predicate BridgeAt(t: Table, e: ModelEntry, k: nat) {
    && e in t && SeveralRowsOf(t, Lower(e.model)) && e.redirect != ""
    && k < |t| && ServesFirst(t, e.redirect, k) && t[k].redirect != ""
  }

  ghost predicate Bridges(t: Table, e: ModelEntry, group: string) {
    exists k :: 0 <= k < |t| && BridgeAt(t, e, k) && Lower(t[k].model) == group
  }

  lemma SecondHopExactly(t: Table, e: ModelEntry, group: string)
    ensures SecondHopOf(t, e, group) <==> Bridges(t, e, group)
  {
    hide Lower, CountGroup, EnabledRows, ServesFirst;
    SeveralRows(t, Lower(e.model));
    EnabledExactly(t, e.redirect);
    forall k: nat, j: nat | ServesFirst(t, e.redirect, k) && ServesFirst(t, e.redirect, j) ensures k == j {
      ServedOnce(t, e.redirect, k, j);
    }
    if SecondHopOf(t, e, group) {
      var k :| 0 <= k < |t| && ServesFirst(t, e.redirect, k) && EnabledRows(t, e.redirect)[0] == t[k];
      assert BridgeAt(t, e, k);
    }
  }

  /** A group is kept as configured if and only if it has several rows, or is the bridge of a row of such a group. */
  lemma ProtectedExactly(t: Table, group: string)
    ensures Protected(t, group) <==> SeveralRowsOf(t, group) || exists e :: e in t && Bridges(t, e, group)
  {
    hide Lower, CountGroup, SecondHopOf, Bridges;
    SeveralRows(t, group);
    forall e | e in t { SecondHopExactly(t, e, group); }
  }
}
