/** Lookups in a model table, told by places: which rows serve a name, and where a row resolves to. */
module ModelTableLaws {
  import opened Names
  import opened Seqs
  import opened ModelTable

  predicate ServesExactly(t: Table, name: string, k: nat) {
    k < |t| && !t[k].disabled && t[k].model == name
  }

  /** The row's name is `name` with a thinking suffix. */
  predicate ServesAsVariant(t: Table, name: string, k: nat) {
    k < |t| && !t[k].disabled && t[k].model != name && Routing(t[k].model) == name
  }

  /** The first enabled row of that name, or, where there is none, the first variant of it. */
  ghost predicate ServesFirst(t: Table, name: string, k: nat) {
    || (ServesExactly(t, name, k) && forall j :: 0 <= j < k ==> !ServesExactly(t, name, j))
    || (ServesAsVariant(t, name, k) && (forall j :: 0 <= j < k ==> !ServesAsVariant(t, name, j)) &&
        forall j :: 0 <= j < |t| ==> !ServesExactly(t, name, j))
  }

  lemma {:induction false} ExactFirst(t: Table, name: string)
    ensures forall e :: e in ExactRows(t, name) <==> e in t && !e.disabled && e.model == name
    ensures ExactRows(t, name) != [] ==>
      exists k :: 0 <= k < |t| && ServesExactly(t, name, k) && ExactRows(t, name)[0] == t[k] &&
                  forall j :: 0 <= j < k ==> !ServesExactly(t, name, j)
  {
    hide Filter;
    var p := (e: ModelEntry) => !e.disabled && e.model == name;
    FilterMembers(p, t);
    if t != [] {
      var front, last := t[..|t| - 1], t[|t| - 1];
      assert t == front + [last];
      ExactFirst(front, name);
      FilterStep(p, front, last);
      assert forall j :: 0 <= j < |front| ==> ServesExactly(front, name, j) == ServesExactly(t, name, j);
      if ExactRows(front, name) != [] {
        var k :| 0 <= k < |front| && ServesExactly(front, name, k) && ExactRows(front, name)[0] == front[k] &&
                 forall j :: 0 <= j < k ==> !ServesExactly(front, name, j);
        assert ServesExactly(t, name, k);
      } else if p(last) {
        assert forall j :: 0 <= j < |front| ==> front[j] in front;
        assert ServesExactly(t, name, |front|);
      }
    } else {
      NoneExact(name);
    }
  }

  lemma NoneExact(name: string)
    ensures ExactRows([], name) == []
  {
  }

  lemma {:induction false} VariantFirst(t: Table, name: string)
    ensures AliasRows(t, name) == [] ==> forall j :: 0 <= j < |t| ==> !ServesAsVariant(t, name, j)
    ensures AliasRows(t, name) != [] ==>
      exists k :: 0 <= k < |t| && ServesAsVariant(t, name, k) && AliasRows(t, name) == [t[k]] &&
                  forall j :: 0 <= j < k ==> !ServesAsVariant(t, name, j)
  {
    hide Routing;
    if t != [] {
      var rest := t[1..];
      VariantFirst(rest, name);
      assert forall j :: 0 <= j < |rest| ==> ServesAsVariant(rest, name, j) == ServesAsVariant(t, name, j + 1);
      if ServesAsVariant(t, name, 0) {
        assert AliasRows(t, name) == [t[0]];
      } else {
        assert AliasRows(t, name) == AliasRows(rest, name);
        forall j | 0 < j < |t| ensures ServesAsVariant(t, name, j) == ServesAsVariant(rest, name, j - 1) {}
        if AliasRows(rest, name) != [] {
          var k :| 0 <= k < |rest| && ServesAsVariant(rest, name, k) && AliasRows(rest, name) == [rest[k]] &&
                   forall j :: 0 <= j < k ==> !ServesAsVariant(rest, name, j);
          assert ServesAsVariant(t, name, k + 1) && t[k + 1] == rest[k];
        }
      }
    }
  }

  /** A name is served by all enabled rows that bear it, or else by the first enabled variant, and the lookups that
      take one row take the first. */
  lemma EnabledExactly(t: Table, name: string)
    ensures EnabledRows(t, name) == [] <==> forall k :: 0 <= k < |t| ==> !ServesFirst(t, name, k)
    ensures EnabledRows(t, name) != [] ==>
      exists k :: 0 <= k < |t| && ServesFirst(t, name, k) && EnabledRows(t, name)[0] == t[k]
    ensures (exists k :: 0 <= k < |t| && ServesExactly(t, name, k)) ==>
      forall e :: e in EnabledRows(t, name) <==> e in t && !e.disabled && e.model == name
    ensures (forall k :: 0 <= k < |t| ==> !ServesExactly(t, name, k)) ==> |EnabledRows(t, name)| <= 1
  {
    hide ExactRows, Routing;
    ExactFirst(t, name);
    VariantFirst(t, name);
    if ExactRows(t, name) == [] {
      forall k | 0 <= k < |t| ensures !ServesExactly(t, name, k) {
        assert t[k] in t;
      }
    } else {
      var k :| 0 <= k < |t| && ServesExactly(t, name, k) && ExactRows(t, name)[0] == t[k] &&
               forall j :: 0 <= j < k ==> !ServesExactly(t, name, j);
      assert ServesFirst(t, name, k);
    }
    if AliasRows(t, name) != [] && ExactRows(t, name) == [] {
      var k :| 0 <= k < |t| && ServesAsVariant(t, name, k) && AliasRows(t, name) == [t[k]] &&
               forall j :: 0 <= j < k ==> !ServesAsVariant(t, name, j);
      assert ServesFirst(t, name, k);
    }
  }

  lemma ServedOnce(t: Table, name: string, k: nat, j: nat)
    requires ServesFirst(t, name, k) && ServesFirst(t, name, j)
    ensures k == j
  {
    hide Routing;
  }

  /** A row without a redirect resolves to the name asked for; one with a redirect to where the row that serves the
      redirect leads, if that redirects again, and otherwise to its own. */
  lemma ResolvesExactly(t: Table, logical: string, row: ModelEntry)
    ensures row.redirect == "" ==> ResolveActual(t, logical, row) == Routing(logical)
    ensures forall k: nat :: row.redirect != "" && ServesFirst(t, row.redirect, k) && t[k].redirect != "" ==>
      ResolveActual(t, logical, row) == Routing(t[k].redirect)
    ensures row.redirect != "" && (forall k: nat :: ServesFirst(t, row.redirect, k) ==> t[k].redirect == "") ==>
      ResolveActual(t, logical, row) == Routing(row.redirect)
  {
    hide Routing, EnabledRows, ServesFirst;
    EnabledExactly(t, row.redirect);
    assert forall k: nat :: ServesFirst(t, row.redirect, k) ==> k < |t| by { ServesWithin(t, row.redirect); }
    forall k: nat, j: nat | ServesFirst(t, row.redirect, k) && ServesFirst(t, row.redirect, j) ensures k == j {
      ServedOnce(t, row.redirect, k, j);
    }
  }

  lemma ServesWithin(t: Table, name: string)
    ensures forall k: nat :: ServesFirst(t, name, k) ==> k < |t|
  {
    hide Routing;
  }

  /** A group has several rows exactly if two places hold rows of it. */
  lemma {:induction false} SeveralRows(t: Table, group: string)
    ensures CountGroup(t, group) == 0 <==> forall i :: 0 <= i < |t| ==> Lower(t[i].model) != group
    ensures CountGroup(t, group) > 1 <==>
      exists i, j :: 0 <= i < j < |t| && Lower(t[i].model) == group && Lower(t[j].model) == group
  {
    hide Lower;
    if t != [] {
      var front, n := t[..|t| - 1], |t| - 1;
      SeveralRows(front, group);
      assert forall i :: 0 <= i < n ==> front[i] == t[i];
      if CountGroup(front, group) > 0 && Lower(t[n].model) == group {
        var i :| 0 <= i < n && Lower(front[i].model) == group;
        assert Lower(t[i].model) == group;
      }
      if i, j :| 0 <= i < j < |t| && Lower(t[i].model) == group && Lower(t[j].model) == group {
        if j < n { assert Lower(front[i].model) == group && Lower(front[j].model) == group; }
      }
    }
  }
}
