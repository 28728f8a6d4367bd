/** What save normalisation guarantees, and exactly when running it again changes nothing. */
module ModelSaveLaws {
  import opened Names
  import opened ModelTable
  import opened Seqs
  import opened ModelSave

  // ---- de-duplication ------------------------------------------------------------------------

  lemma PreferTransitive(a: Candidate, b: Candidate, c: Candidate)
    requires Prefer(a, b) && Prefer(b, c)
    ensures Prefer(a, c)
  {
    if a.exact == b.exact == c.exact && a.prefixed == b.prefixed == c.prefixed {
      StringLessTransitive(a.upstream, b.upstream, c.upstream);
    }
  }

  lemma PreferIrreflexive(a: Candidate)
    ensures !Prefer(a, a)
  {
    StringLessTrichotomy(a.upstream, a.upstream);
  }

  ghost predicate Represents(kept: seq<Named>, x: Named) {
    exists k :: 0 <= k < |kept| && kept[k].id == x.id && !Prefer(x.candidate, kept[k].candidate)
  }

  lemma {:induction false} DedupKeepsBest(named: seq<Named>)
    ensures DistinctIds(Dedup(named))
    ensures forall y :: y in Dedup(named) ==> y in named
    ensures forall x :: x in named ==> Represents(Dedup(named), x)
  {
    if named != [] {
      var front, x := named[..|named| - 1], named[|named| - 1];
      DedupKeepsBest(front);
      var kept := Dedup(front);
      var k := IndexOf(kept, x.id);
      assert named == front + [x];
      assert Dedup(named) == Place(kept, x);
      PlaceRepresents(kept, x);
      forall z | z in front ensures Represents(Place(kept, x), z) {
        PlaceKeepsRepresentation(kept, x, z);
      }
    }
  }

  lemma PlaceRepresents(kept: seq<Named>, x: Named)
    requires DistinctIds(kept)
    ensures DistinctIds(Place(kept, x))
    ensures forall y :: y in Place(kept, x) ==> y in kept || y == x
    ensures Represents(Place(kept, x), x)
  {
    var k := IndexOf(kept, x.id);
    var r := Place(kept, x);
    PreferIrreflexive(x.candidate);
    var at := if k < 0 then |kept| else k;
    assert r[at].id == x.id && !Prefer(x.candidate, r[at].candidate);
  }

  lemma PlaceKeepsRepresentation(kept: seq<Named>, x: Named, z: Named)
    requires Represents(kept, z)
    ensures Represents(Place(kept, x), z)
  {
    var j :| 0 <= j < |kept| && kept[j].id == z.id && !Prefer(z.candidate, kept[j].candidate);
    var k := IndexOf(kept, x.id);
    var r := Place(kept, x);
    if j == k && Prefer(x.candidate, kept[j].candidate) && Prefer(z.candidate, x.candidate) {
      PreferTransitive(z.candidate, x.candidate, kept[j].candidate);
    }
    assert r[j].id == z.id && !Prefer(z.candidate, r[j].candidate);
  }

  lemma {:induction false} DedupIdentity(named: seq<Named>)
    requires DistinctIds(named)
    ensures Dedup(named) == named
  {
    if named != [] {
      var front, x := named[..|named| - 1], named[|named| - 1];
      DedupIdentity(front);
      assert named == front + [x];
      assert forall i :: 0 <= i < |front| ==> front[i].id == named[i].id != x.id;
    }
  }

  // ---- one row more --------------------------------------------------------------------------

  lemma NamedStep(rows: Table, e: ModelEntry, o: Options)
    ensures NamedRows(rows + [e], o) == NamedRows(rows, o) + [NameRow(e, Chosen(rows, e, o), o)]
  {
    hide Chosen, NameRow;
    assert (rows + [e])[..|rows|] == rows;
  }

  lemma DedupStep(named: seq<Named>, x: Named)
    ensures Dedup(named + [x]) == Place(Dedup(named), x)
  {
    hide Place;
    assert (named + [x])[..|named|] == named;
  }

  lemma ChosenFirst(e: ModelEntry, o: Options)
    ensures Chosen([], e, o) == Alias(e.model, o)
  {
    hide Alias, Lower;
  }

  lemma SavedFirst(o: Options)
    ensures FilterMap(Validate, []) == [] && NamedRows([], o) == [] && Dedup([]) == []
  {
    hide Validate;
  }

  // ---- naming --------------------------------------------------------------------------------

  /** `x` is cleaned row `row` of `rows`, under the spelling of its group. */
  ghost predicate NamedFrom(x: Named, rows: Table, o: Options, row: ModelEntry) {
    && row in rows
    && x == NameRow(row, x.row.model, o)
    && EqualFold(x.row.model, Alias(row.model, o))
  }

  lemma {:induction false} SpellingFolds(rows: Table, o: Options, group: string)
    ensures var s := Spelling(rows, o, group); s.Some? ==> Lower(s.value) == group
  {
    if rows != [] {
      SpellingFolds(rows[..|rows| - 1], o, group);
    }
  }

  lemma {:induction false} NamedRowsOrigin(rows: Table, o: Options)
    ensures forall i :: 0 <= i < |rows| ==> NamedFrom(NamedRows(rows, o)[i], rows, o, rows[i])
    ensures forall x :: x in NamedRows(rows, o) ==> Spelling(rows, o, Lower(x.row.model)) == Some(x.row.model)
  {
    hide Lower, Alias, LastIndex, Routing;
    if rows != [] {
      var front, last := rows[..|rows| - 1], rows[|rows| - 1];
      NamedRowsOrigin(front, o);
      assert rows == front + [last];
      var alias := Chosen(front, last, o);
      SpellingFolds(front, o, Lower(Alias(last.model, o)));
      var named := NamedRows(rows, o);
      forall i | 0 <= i < |rows| ensures NamedFrom(named[i], rows, o, rows[i]) {
        if i < |front| { assert NamedFrom(NamedRows(front, o)[i], front, o, front[i]); }
      }
      forall x | x in named ensures Spelling(rows, o, Lower(x.row.model)) == Some(x.row.model) {
        if x in NamedRows(front, o) {
          assert Spelling(front, o, Lower(x.row.model)).Some?;
        }
      }
    }
  }

  /** `r` is `row` under its normalised name: same upstream, same state. */
  ghost predicate SameRoute(r: ModelEntry, row: ModelEntry, o: Options) {
    && r.Target() == row.Target()
    && EqualFold(r.model, Alias(row.model, o))
    && r.disabled == row.disabled
    && r.pricing == row.pricing
  }

  ghost predicate FromRows(x: Named, rows: Table, o: Options) {
    && x.id == x.row.Identity()
    && Spelling(rows, o, Lower(x.row.model)) == Some(x.row.model)
    && exists row :: row in rows && SameRoute(x.row, row, o)
  }

  lemma CleanRowNamed(entries: Table, row: ModelEntry)
    requires row in CleanRows(entries)
    ensures row.model != "" && row.Target() != "" && Validate(row) == Some(row)
  {
    hide FilterMap, TrimSpace, HasControl;
    FilterMapMembers(Validate, entries);
    var e :| e in entries && Validate(e) == Some(row);
    ValidatedTwice(e);
  }

  lemma ValidatedTwice(e: ModelEntry)
    ensures Validate(e).Some? ==> Validate(Validate(e).value) == Validate(e) && Validate(e).value.model != ""
  {
    hide HasControl, IsSpace, TrimLeft, TrimRight;
  }

  lemma NamedFromRows(entries: Table, o: Options, x: Named)
    requires x in NamedRows(CleanRows(entries), o)
    ensures FromRows(x, CleanRows(entries), o)
  {
    hide Lower, Alias, LastIndex, Routing, Validate, Prefer, FilterMap, Spelling, NamedRows;
    var rows := CleanRows(entries);
    NamedRowsOrigin(rows, o);
    var named := NamedRows(rows, o);
    var i :| 0 <= i < |named| && named[i] == x;
    assert NamedFrom(x, rows, o, rows[i]);
    CleanRowNamed(entries, rows[i]);
    assert SameRoute(x.row, rows[i], o);
  }

  // ---- aliases and preferences ---------------------------------------------------------------

  /** The name has a source prefix: a slash, with something after the last one. */
  ghost predicate HasSource(name: string, k: nat) {
    k < |name| - 1 && name[k] == '/' && forall i :: k < i < |name| ==> name[i] != '/'
  }

  /** An alias is the name without its source, if sources are stripped, and in lower case, if that is asked for. */
  lemma AliasTells(name: string, o: Options)
    ensures forall k: nat :: o.stripPrefix && HasSource(name, k) ==>
      Alias(name, o) == if o.lowercase then Lower(name[k + 1..]) else name[k + 1..]
    ensures !o.stripPrefix || (forall k: nat :: !HasSource(name, k)) ==>
      Alias(name, o) == if o.lowercase then Lower(name) else name
    ensures SourcePrefixed(name, o) <==> o.stripPrefix && exists k: nat :: HasSource(name, k)
  {
    hide Lower;
    forall k: nat | HasSource(name, k) ensures LastIndex(name, '/') == k {}
    if Strippable(name) { assert HasSource(name, LastIndex(name, '/')); }
  }

  /** Better is a row whose alias is its upstream; next, one without a source prefix; next, the smaller upstream. */
  lemma PreferTells(a: Candidate, b: Candidate)
    ensures !Prefer(a, b) ==>
      && (a.exact ==> b.exact)
      && (b.exact == a.exact && !a.prefixed ==> !b.prefixed)
      && (b.exact == a.exact && b.prefixed == a.prefixed ==> !StringLess(a.upstream, b.upstream))
  {
  }

  /** The row has a source prefix that goes. */
  ghost predicate Sourced(row: ModelEntry, o: Options) {
    o.stripPrefix && exists k: nat :: HasSource(row.model, k)
  }

  /** The mark of a row named `alias`. */
  ghost function MarkOf(row: ModelEntry, alias: string, o: Options): Candidate {
    Candidate(row.Target(), Sourced(row, o), row.Target() == alias)
  }

  lemma MarksTell(row: ModelEntry, alias: string, o: Options)
    ensures NameRow(row, alias, o).candidate == MarkOf(row, alias, o)
    ensures row.Target() != "" ==> NameRow(row, alias, o).row.Target() == row.Target()
    ensures NameRow(row, alias, o).row.model == alias
  {
    hide Alias, Lower, Routing, HasSource, SourcePrefixed;
    AliasTells(row.model, o);
  }

  /** The candidate kept is at least as good as the other. */
  predicate NotWorse(kept: Candidate, other: Candidate) {
    && (other.exact ==> kept.exact)
    && (kept.exact == other.exact && !other.prefixed ==> !kept.prefixed)
    && (kept.exact == other.exact && kept.prefixed == other.prefixed ==> !StringLess(other.upstream, kept.upstream))
  }

  /** For each storable row the one kept for its identity is not worse. */
  lemma KeptNotWorse(entries: Table, o: Options, i: nat)
    requires i < |CleanRows(entries)|
    ensures var rows, kept := CleanRows(entries), Kept(entries, o);
            var y := NamedRows(rows, o)[i];
      exists k :: 0 <= k < |kept| && kept[k].id == y.id && NotWorse(kept[k].candidate, MarkOf(rows[i], y.row.model, o))
  {
    hide CleanRows, NamedRows, Dedup, Prefer, MarkOf, NotWorse;
    var rows := CleanRows(entries);
    var named, kept := NamedRows(rows, o), Kept(entries, o);
    var y := named[i];
    MarkedAsNamed(rows, o, i);
    assert Represents(kept, y) by {
      DedupKeepsBest(named);
      assert y in named;
    }
    var k :| 0 <= k < |kept| && kept[k].id == y.id && !Prefer(y.candidate, kept[k].candidate);
    NotPreferred(y.candidate, kept[k].candidate);
  }

  lemma MarkedAsNamed(rows: Table, o: Options, i: nat)
    requires i < |rows|
    ensures NamedRows(rows, o)[i].candidate == MarkOf(rows[i], NamedRows(rows, o)[i].row.model, o)
  {
    hide NamedRows, NameRow, MarkOf, Spelling;
    NamedRowsOrigin(rows, o);
    assert NamedFrom(NamedRows(rows, o)[i], rows, o, rows[i]);
    MarksTell(rows[i], NamedRows(rows, o)[i].row.model, o);
  }

  lemma NotPreferred(a: Candidate, b: Candidate)
    requires !Prefer(a, b)
    ensures NotWorse(b, a)
  {
    PreferTells(a, b);
  }

  /** Every kept row goes on with the upstream of a storable row, under that row's mark. */
  lemma KeptMarks(entries: Table, o: Options)
    ensures forall x :: x in Kept(entries, o) ==>
      exists row :: row in CleanRows(entries) && x.row.Target() == row.Target() &&
          x.candidate == MarkOf(row, x.row.model, o)
  {
    hide CleanRows, NamedRows, Dedup, Prefer, MarkOf, NameRow;
    var rows := CleanRows(entries);
    var named := NamedRows(rows, o);
    NamedRowsOrigin(rows, o);
    DedupKeepsBest(named);
    forall x | x in Kept(entries, o)
      ensures exists row :: row in rows && x.row.Target() == row.Target() && x.candidate == MarkOf(row, x.row.model, o)
    {
      var j :| 0 <= j < |named| && named[j] == x;
      assert NamedFrom(named[j], rows, o, rows[j]);
      CleanRowNamed(entries, rows[j]);
      MarksTell(rows[j], x.row.model, o);
    }
  }

  /** The rows kept for the named rows of `entries`. */
  ghost function Kept(entries: Table, o: Options): seq<Named> {
    Dedup(NamedRows(CleanRows(entries), o))
  }

  /** Save normalisation keeps one row per identity, spelled like its group, and for every storable
      row the identity it folds to is kept by a candidate that row does not beat. */
  lemma SaveKeepsBest(entries: Table, o: Options)
    ensures SaveTable(entries, o) == Rows(Kept(entries, o))
    ensures DistinctIds(Kept(entries, o))
    ensures forall x :: x in Kept(entries, o) ==> FromRows(x, CleanRows(entries), o)
    ensures forall x :: x in NamedRows(CleanRows(entries), o) ==> Represents(Kept(entries, o), x)
  {
    hide FromRows;
    DedupKeepsBest(NamedRows(CleanRows(entries), o));
    forall x | x in Kept(entries, o) ensures FromRows(x, CleanRows(entries), o) {
      NamedFromRows(entries, o, x);
    }
  }

  lemma SaveTableMeaning(entries: Table, o: Options)
    ensures DistinctIdentities(SaveTable(entries, o))
    ensures forall r, s :: r in SaveTable(entries, o) && s in SaveTable(entries, o) && EqualFold(r.model, s.model)
                           ==> r.model == s.model
    ensures forall r :: r in SaveTable(entries, o) ==> exists row :: row in CleanRows(entries) && SameRoute(r, row, o)
  {
    hide Lower, Alias, LastIndex, Routing, Validate, Prefer, FilterMap, Spelling, NamedRows, Dedup;
    SaveKeepsBest(entries, o);
    var kept, out := Kept(entries, o), SaveTable(entries, o);
    assert forall k :: 0 <= k < |kept| ==> FromRows(kept[k], CleanRows(entries), o) && out[k] == kept[k].row;
  }

  // ---- cleaning, spelling and order ----------------------------------------------------------

  predicate Clear(s: string) {
    '\0' !in s && '\r' !in s && '\n' !in s
  }

  /** A row is storable exactly if its trimmed name is neither blank nor the wildcard, its names have no control
      characters and its price is valid; then it is stored with trimmed names and without a blank price. */
  lemma ValidateTells(e: ModelEntry)
    ensures var name, redirect := TrimSpace(e.model), TrimSpace(e.redirect);
      Validate(e) ==
      if name != "" && name != "*" && Clear(name) && Clear(redirect) && !e.pricing.InvalidPrice?
      then Some(ModelEntry(name, redirect, e.disabled, if e.pricing == BlankPrice then Unpriced else e.pricing))
      else None
  {
    hide TrimSpace;
    assert forall s :: HasControl(s) <==> !Clear(s);
  }

  /** The alias of row `k` is the first one of its group. */
  ghost predicate FirstAlias(rows: Table, o: Options, k: nat) {
    k < |rows| && forall j :: 0 <= j < k ==> !EqualFold(Alias(rows[j].model, o), Alias(rows[k].model, o))
  }

  lemma {:induction false} SpellingIsFirst(rows: Table, o: Options, group: string)
    ensures Spelling(rows, o, group).Some? ==>
      exists k :: 0 <= k < |rows| && FirstAlias(rows, o, k) && Spelling(rows, o, group) == Some(Alias(rows[k].model, o))
    ensures Spelling(rows, o, group).None? ==>
      forall k :: 0 <= k < |rows| ==> Lower(Alias(rows[k].model, o)) != group
  {
    hide Lower, Alias;
    if rows != [] {
      var front, n := rows[..|rows| - 1], |rows| - 1;
      assert forall j :: 0 <= j < n ==> front[j] == rows[j];
      SpellingIsFirst(front, o, group);
      if Spelling(front, o, group).Some? {
        var k :| 0 <= k < |front| && FirstAlias(front, o, k) &&
                 Spelling(front, o, group) == Some(Alias(front[k].model, o));
        assert FirstAlias(rows, o, k);
      } else if Spelling(rows, o, group).Some? {
        assert FirstAlias(rows, o, n);
      }
    }
  }

  /** Every saved row is spelled like the first storable row of its group. */
  lemma SavedSpelling(entries: Table, o: Options, r: ModelEntry)
    requires r in SaveTable(entries, o)
    ensures exists k :: 0 <= k < |CleanRows(entries)| && FirstAlias(CleanRows(entries), o, k) &&
                        r.model == Alias(CleanRows(entries)[k].model, o)
  {
    hide Lower, Alias, CleanRows, SaveTable, Spelling, Kept, FirstAlias;
    SaveKeepsBest(entries, o);
    var kept := Kept(entries, o);
    var i :| 0 <= i < |kept| && kept[i].row == r;
    assert FromRows(kept[i], CleanRows(entries), o);
    SpellingIsFirst(CleanRows(entries), o, Lower(r.model));
  }

  /** Kept row `k` stands for the first named row of its identity, which is at `at[k]`. */
  ghost predicate InOrderOfFirst(named: seq<Named>, kept: seq<Named>, at: seq<nat>) {
    && |at| == |kept| && (forall i, j :: 0 <= i < j < |at| ==> at[i] < at[j])
    && forall k :: 0 <= k < |at| ==>
         at[k] < |named| && named[at[k]].id == kept[k].id && forall j :: 0 <= j < at[k] ==> named[j].id != kept[k].id
  }

  /** De-duplication keeps identities in the order in which they first come. */
  lemma {:induction false} DedupOrder(named: seq<Named>) returns (at: seq<nat>)
    ensures InOrderOfFirst(named, Dedup(named), at)
  {
    if named == [] {
      at := [];
    } else {
      var front, x := named[..|named| - 1], named[|named| - 1];
      assert named == front + [x];
      at := DedupOrder(front);
      DedupKeepsBest(front);
      OrderStep(front, x, Dedup(front), at);
      if IndexOf(Dedup(front), x.id) < 0 { at := at + [|front|]; }
    }
  }

  lemma OrderStep(front: seq<Named>, x: Named, kept: seq<Named>, at: seq<nat>)
    requires InOrderOfFirst(front, kept, at) && forall y :: y in front ==> Represents(kept, y)
    ensures InOrderOfFirst(front + [x], Place(kept, x), if IndexOf(kept, x.id) < 0 then at + [|front|] else at)
  {
    hide Prefer, IndexOf;
    var named := front + [x];
    assert forall j :: 0 <= j < |front| ==> named[j] == front[j];
    if IndexOf(kept, x.id) < 0 {
      forall j | 0 <= j < |front| ensures front[j].id != x.id {
        assert front[j] in front;
        assert Represents(kept, front[j]);
      }
    }
  }
}
