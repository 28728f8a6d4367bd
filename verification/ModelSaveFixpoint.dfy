/** Running save normalisation twice: it is idempotent exactly when no alias it produces would be
    trimmed or rejected by the row validation of the second run. */
module ModelSaveFixpoint {
  import opened Names
  import opened ModelTable
  import opened Seqs
  import opened ModelSave
  import opened ModelSaveLaws

  /** A row name that validation leaves alone. */
  predicate Storable(name: string) {
    Trimmed(name) && name != "*"
  }

  predicate CleanText(s: string) {
    Trimmed(s) && !HasControl(s)
  }

  /** A row that validation leaves alone. */
  predicate CleanRow(r: ModelEntry) {
    && r.model != "" && Storable(r.model) && CleanText(r.model) && CleanText(r.redirect)
    && !r.pricing.BlankPrice? && !r.pricing.InvalidPrice?
  }

  lemma CleanRowValid(r: ModelEntry)
    ensures CleanRow(r) <==> Validate(r) == Some(r)
  {
    hide TrimSpace, HasControl;
  }

  ghost predicate SettledRow(r: ModelEntry, o: Options) {
    Validate(r) == Some(r) && Alias(r.model, o) == r.model && r.redirect != r.model
  }

  ghost predicate UniformSpelling(t: Table) {
    forall r, s :: r in t && s in t && EqualFold(r.model, s.model) ==> r.model == s.model
  }

  /** A table that save normalisation has nothing to do to. */
  ghost predicate Settled(t: Table, o: Options) {
    (forall r :: r in t ==> SettledRow(r, o)) && UniformSpelling(t) && DistinctIdentities(t)
  }

  // ---- aliases -------------------------------------------------------------------------------

  lemma NoSlash(s: string)
    requires '/' !in s
    ensures LastIndex(s, '/') == -1
  {
  }

  lemma AliasIdempotent(name: string, o: Options)
    ensures Alias(Alias(name, o), o) == Alias(name, o)
  {
    var base := if o.stripPrefix && Strippable(name) then name[LastIndex(name, '/') + 1..] else name;
    LowerLastIndex(base, '/');
    LowerIdempotent(base);
    if o.stripPrefix && Strippable(name) {
      NoSlash(base);
    }
  }

  lemma AliasFixedNotStripped(name: string, o: Options)
    requires Alias(name, o) == name
    ensures !(o.stripPrefix && Strippable(name))
  {
  }

  /** Trimming takes only blanks away: what is left is a stretch of the text. */
  lemma TrimmedSlice(s: string) returns (k: nat)
    ensures k + |TrimSpace(s)| <= |s| && TrimSpace(s) == s[k..k + |TrimSpace(s)|]
    ensures s != "" && !IsSpace(s[|s| - 1]) ==> TrimSpace(s) == s[k..]
  {
    hide IsSpace, TrimLeft, TrimRight;
    var l := TrimLeft(s);
    k := |s| - |l|;
    assert l[..|TrimSpace(s)|] == s[k..][..|TrimSpace(s)|] == s[k..k + |TrimSpace(s)|];
    if s != "" && !IsSpace(s[|s| - 1]) && l != "" {
      assert l[|l| - 1] == s[|s| - 1];
      assert TrimSpace(s) == l;
    }
  }

  lemma TrimmedNotStrippable(name: string)
    requires !Strippable(name)
    ensures !Strippable(TrimSpace(name))
  {
    hide TrimSpace;
    var k := TrimmedSlice(name);
    var t := TrimSpace(name);
    if t != "" {
      if LastIndex(name, '/') >= 0 {
        assert name[|name| - 1] == '/';
        assert t[|t| - 1] == '/';
        assert LastIndex(t, '/') == |t| - 1;
      } else {
        assert forall i :: 0 <= i < |t| ==> t[i] == name[k + i];
        NoSlash(t);
      }
    }
  }

  /** Trimming a name that aliasing leaves alone gives a name aliasing still does not strip. */
  lemma TrimmedAliasStorable(name: string, o: Options)
    requires Alias(name, o) == name && TrimSpace(name) != "*"
    ensures Storable(Alias(TrimSpace(name), o))
  {
    hide Lower, TrimSpace;
    AliasFixedNotStripped(name, o);
    hide Strippable;
    var t := TrimSpace(name);
    if o.stripPrefix { TrimmedNotStrippable(name); }
    assert Alias(t, o) == if o.lowercase then Lower(t) else t;
    LowerTrimmed(t);
    LowerStar(t);
  }

  lemma LowerStar(s: string)
    ensures (Lower(s) == "*") == (s == "*")
  {
    if |s| == 1 { assert s == [s[0]]; assert Lower(s) == [LowerChar(s[0])]; }
  }

  lemma StorableFolds(a: string, b: string)
    requires EqualFold(a, b)
    ensures Storable(a) == Storable(b)
  {
    LowerTrimmed(a);
    LowerTrimmed(b);
    LowerStar(a);
    LowerStar(b);
  }

  lemma ControlFolds(a: string, b: string)
    requires EqualFold(a, b)
    ensures HasControl(a) == HasControl(b)
  {
    assert |a| == |Lower(a)| == |Lower(b)| == |b|;
    forall i | 0 <= i < |a| ensures (a[i] in {'\0', '\r', '\n'}) == (b[i] in {'\0', '\r', '\n'}) {
      assert LowerChar(a[i]) == Lower(a)[i] == Lower(b)[i] == LowerChar(b[i]);
    }
  }

  lemma AliasControl(name: string, o: Options)
    requires !HasControl(name)
    ensures !HasControl(Alias(name, o))
  {
    var base := if o.stripPrefix && Strippable(name) then name[LastIndex(name, '/') + 1..] else name;
    assert forall i :: 0 <= i < |base| ==> base[i] == name[|name| - |base| + i];
    if o.lowercase {
      LowerIdempotent(base);
      ControlFolds(base, Lower(base));
    }
  }

  // ---- settled tables ------------------------------------------------------------------------

  lemma {:induction false} SpellingMember(rows: Table, o: Options, group: string)
    requires Spelling(rows, o, group).Some?
    ensures exists r :: r in rows && Alias(r.model, o) == Spelling(rows, o, group).value
    ensures Lower(Spelling(rows, o, group).value) == group
  {
    hide Lower, Alias;
    var front, last := rows[..|rows| - 1], rows[|rows| - 1];
    if Spelling(front, o, group).Some? {
      SpellingMember(front, o, group);
    } else {
      assert last in rows;
    }
  }

  lemma {:induction false} SettledRows(t: Table, o: Options)
    requires forall r :: r in t ==> SettledRow(r, o)
    requires UniformSpelling(t)
    ensures forall i :: 0 <= i < |t| ==> NamedRows(t, o)[i] == NameRow(t[i], t[i].model, o)
  {
    hide Lower, Alias, Validate, Routing, NameRow;
    if t != [] {
      var front, last := t[..|t| - 1], t[|t| - 1];
      assert t == front + [last];
      SettledRows(front, o);
      SettledSpelling(front, last, o);
      assert NamedRows(t, o) == NamedRows(front, o) + [NameRow(last, last.model, o)];
    }
  }

  lemma SettledSpelling(front: Table, last: ModelEntry, o: Options)
    requires forall r :: r in front + [last] ==> SettledRow(r, o)
    requires UniformSpelling(front + [last])
    ensures Chosen(front, last, o) == last.model
  {
    hide Lower, Alias, Validate, Spelling;
    assert last in front + [last];
    var group := Lower(last.model);
    if Spelling(front, o, group).Some? {
      SpellingMember(front, o, group);
      var r :| r in front && Alias(r.model, o) == Spelling(front, o, group).value;
      assert r in front + [last];
      assert EqualFold(r.model, last.model);
    }
  }

  lemma NameRowItself(r: ModelEntry, o: Options)
    requires SettledRow(r, o)
    ensures NameRow(r, r.model, o).row == r
  {
    hide Lower, Alias, Routing, Validate;
  }

  lemma SettledFixed(t: Table, o: Options)
    requires Settled(t, o)
    ensures SaveTable(t, o) == t
  {
    hide Lower, Alias, Validate, Routing, NamedRows, SettledRow, UniformSpelling, Dedup, FilterMap;
    assert forall r :: r in t ==> Validate(r) == Some(r) by {
      forall r | r in t ensures Validate(r) == Some(r) { SettledRowValid(r, o); }
    }
    FilterMapIdentity(Validate, t);
    SettledRows(t, o);
    var named := NamedRows(t, o);
    forall i | 0 <= i < |t| ensures named[i].row == t[i] && named[i].id == t[i].Identity() {
      NameRowItself(t[i], o);
    }
    DedupIdentity(named);
    assert Rows(named) == t;
  }

  lemma SettledRowValid(r: ModelEntry, o: Options)
    requires SettledRow(r, o)
    ensures Validate(r) == Some(r)
  {
  }

  lemma SavedRowSettled(row: ModelEntry, r: ModelEntry, o: Options)
    requires Validate(row) == Some(row) && Storable(Alias(row.model, o))
    requires r == NameRow(row, r.model, o).row && EqualFold(r.model, Alias(row.model, o))
    ensures Validate(r) == Some(r) && r.redirect != r.model
  {
    hide Validate, Alias, HasControl, Routing, LastIndex;
    CleanRowValid(row);
    CleanRowValid(r);
    StorableFolds(r.model, Alias(row.model, o));
    AliasControl(row.model, o);
    ControlFolds(r.model, Alias(row.model, o));
    assert |r.model| == |Lower(r.model)| == |Lower(Alias(row.model, o))| > 0;
    EmptyTextClean();
  }

  lemma EmptyTextClean()
    ensures CleanText("")
  {
  }

  /** Where a saved row comes from. */
  lemma SavedRowOrigin(entries: Table, o: Options, r: ModelEntry) returns (row: ModelEntry, s: ModelEntry)
    requires r in SaveTable(entries, o)
    ensures row in CleanRows(entries) && r == NameRow(row, r.model, o).row && EqualFold(r.model, Alias(row.model, o))
    ensures s in CleanRows(entries) && Alias(s.model, o) == r.model
  {
    hide Lower, Alias, LastIndex, Routing, Validate, Prefer, FilterMap, Spelling, NamedRows, Dedup, NameRow;
    SaveKeepsBest(entries, o);
    var rows, kept := CleanRows(entries), Kept(entries, o);
    DedupKeepsBest(NamedRows(rows, o));
    NamedRowsOrigin(rows, o);
    var k :| 0 <= k < |kept| && kept[k].row == r;
    assert kept[k] in NamedRows(rows, o);
    var i :| 0 <= i < |rows| && NamedRows(rows, o)[i] == kept[k];
    assert NamedFrom(NamedRows(rows, o)[i], rows, o, rows[i]);
    row := rows[i];
    assert FromRows(kept[k], rows, o);
    SpellingMember(rows, o, Lower(r.model));
    s :| s in rows && Alias(s.model, o) == r.model;
  }

  lemma SaveSettles(entries: Table, o: Options)
    requires forall row :: row in CleanRows(entries) ==> Storable(Alias(row.model, o))
    ensures Settled(SaveTable(entries, o), o)
  {
    hide Lower, Alias, LastIndex, Routing, Validate, NameRow, CleanRows, Storable, SaveTable;
    SaveTableMeaning(entries, o);
    forall r | r in SaveTable(entries, o) ensures SettledRow(r, o) {
      var row, s := SavedRowOrigin(entries, o, r);
      CleanRowNamed(entries, row);
      SavedRowSettled(row, r, o);
      AliasIdempotent(s.model, o);
    }
  }

  // ---- the exact condition -------------------------------------------------------------------

  lemma RowsFixedStorable(entries: Table, o: Options)
    requires SaveTable(SaveTable(entries, o), o) == SaveTable(entries, o)
    ensures forall r :: r in SaveTable(entries, o) ==> Storable(r.model)
  {
    hide Lower, LastIndex, Routing, Validate, Alias, Storable, SaveTable, NameRow, FilterMap;
    var out := SaveTable(entries, o);
    forall r | r in out ensures Storable(r.model) {
      var row, _ := SavedRowOrigin(out, o, r);
      FilterMapMembers(Validate, out);
      var q :| q in out && Validate(q) == Some(row);
      var _, s := SavedRowOrigin(entries, o, q);
      AliasIdempotent(s.model, o);
      ValidName(q);
      TrimmedAliasStorable(q.model, o);
      StorableFolds(r.model, Alias(row.model, o));
    }
  }

  lemma ValidName(q: ModelEntry)
    requires Validate(q).Some?
    ensures Validate(q).value.model == TrimSpace(q.model) != "*"
  {
  }

  lemma CleanRowKept(entries: Table, o: Options, row: ModelEntry)
    requires row in CleanRows(entries)
    ensures exists r :: r in SaveTable(entries, o) && EqualFold(r.model, Alias(row.model, o))
  {
    hide Lower, LastIndex, Routing, Validate, Alias, Prefer, FilterMap, Spelling, NamedRows, Dedup;
    var rows := CleanRows(entries);
    var i :| 0 <= i < |rows| && rows[i] == row;
    NamedRowsOrigin(rows, o);
    SaveKeepsBest(entries, o);
    var x := NamedRows(rows, o)[i];
    assert NamedFrom(x, rows, o, row) && Represents(Kept(entries, o), x);
    var k :| 0 <= k < |Kept(entries, o)| && Kept(entries, o)[k].id == x.id;
    assert FromRows(Kept(entries, o)[k], rows, o) && SaveTable(entries, o)[k] == Kept(entries, o)[k].row;
    assert SaveTable(entries, o)[k].Identity().model == x.row.Identity().model;
  }

  /** Normalising twice equals normalising once if and only if every alias given to a storable row
      is itself storable: it has no blank end and is not the wildcard. */
  lemma SaveIdempotentExactly(entries: Table, o: Options)
    ensures SaveTable(SaveTable(entries, o), o) == SaveTable(entries, o)
       <==> forall row :: row in CleanRows(entries) ==> Storable(Alias(row.model, o))
  {
    hide Lower, LastIndex, Routing, Validate, Alias, Prefer, FilterMap, Spelling, NamedRows, Dedup, Storable, SaveTable;
    if forall row :: row in CleanRows(entries) ==> Storable(Alias(row.model, o)) {
      SaveSettles(entries, o);
      SettledFixed(SaveTable(entries, o), o);
    }
    if SaveTable(SaveTable(entries, o), o) == SaveTable(entries, o) {
      RowsFixedStorable(entries, o);
      forall row | row in CleanRows(entries) ensures Storable(Alias(row.model, o)) {
        CleanRowKept(entries, o, row);
        var r :| r in SaveTable(entries, o) && EqualFold(r.model, Alias(row.model, o));
        StorableFolds(r.model, Alias(row.model, o));
      }
    }
  }

  // ---- what the store refuses ----------------------------------------------------------------

  lemma TrimmedPart(s: string)
    ensures !HasControl(s) ==> !HasControl(TrimSpace(s))
  {
    hide IsSpace, TrimSpace;
    var k := TrimmedSlice(s);
    assert forall i :: 0 <= i < |TrimSpace(s)| ==> TrimSpace(s)[i] == s[k + i];
  }

  lemma {:induction false} TrimKeepsLast(s: string)
    requires s != "" && !IsSpace(s[|s| - 1])
    ensures TrimSpace(s) != ""
  {
    hide IsSpace, TrimRight;
    if IsSpace(s[0]) {
      TrimKeepsLast(s[1..]);
    } else {
      assert Trimmed(s);
    }
  }

  lemma LastStays(name: string, r: string, o: Options)
    requires name != "" && !IsSpace(name[|name| - 1]) && EqualFold(r, Alias(name, o))
    ensures r != "" && !IsSpace(r[|r| - 1])
  {
    hide IsSpace;
    var base := if o.stripPrefix && Strippable(name) then name[LastIndex(name, '/') + 1..] else name;
    var alias := Alias(name, o);
    assert |base| > 0 && base[|base| - 1] == name[|name| - 1];
    LowerSpace(base[|base| - 1]);
    LowerSpace(alias[|alias| - 1]);
    assert |r| == |Lower(r)| == |Lower(alias)| == |alias|;
    LowerSpace(r[|r| - 1]);
    assert Lower(r)[|r| - 1] == Lower(alias)[|r| - 1];
  }

  lemma TrimmedStarFolds(a: string, b: string)
    requires EqualFold(a, b)
    ensures TrimSpace(a) == "*" <==> TrimSpace(b) == "*"
  {
    hide TrimSpace, Lower;
    LowerTrimSpace(a);
    LowerTrimSpace(b);
    LowerStar(TrimSpace(a));
    LowerStar(TrimSpace(b));
  }

  /** A saved row is refused by the store's validation only when its name trims to the wildcard. */
  lemma RefusedOnlyStar(row: ModelEntry, r: ModelEntry, o: Options)
    requires Validate(row) == Some(row) && r == NameRow(row, r.model, o).row && EqualFold(r.model, Alias(row.model, o))
    ensures Validate(r).None? <==> TrimSpace(Alias(row.model, o)) == "*"
  {
    hide Validate, Alias, HasControl, Routing, LastIndex, IsSpace, TrimSpace, Lower;
    CleanRowValid(row);
    AliasControl(row.model, o);
    ControlFolds(r.model, Alias(row.model, o));
    LastStays(row.model, r.model, o);
    TrimmedPart(r.model);
    TrimKeepsLast(r.model);
    TrimmedStarFolds(r.model, Alias(row.model, o));
    EmptyTextClean();
    assert CleanText(r.redirect);
    Refusal(r);
  }

  lemma Refusal(r: ModelEntry)
    requires CleanText(r.redirect) && TrimSpace(r.model) != "" && !HasControl(TrimSpace(r.model)) &&
        !r.pricing.InvalidPrice?
    ensures Validate(r).None? <==> TrimSpace(r.model) == "*"
  {
    hide HasControl, IsSpace;
    assert TrimSpace(r.redirect) == r.redirect;
  }

  /** The store validates what it is given and refuses the whole table for one bad row: it refuses what save
      normalisation made if and only if the alias of some storable row is, up to blanks, the wildcard. */
  lemma SaveRefusedExactly(entries: Table, o: Options)
    ensures (exists r :: r in SaveTable(entries, o) && Validate(r).None?)
       <==> exists row :: row in CleanRows(entries) && TrimSpace(Alias(row.model, o)) == "*"
  {
    hide Lower, LastIndex, Routing, Validate, Alias, Prefer, FilterMap, Spelling, NamedRows, Dedup, SaveTable,
        TrimSpace, NameRow;
    forall r | r in SaveTable(entries, o) && Validate(r).None?
      ensures exists row :: row in CleanRows(entries) && TrimSpace(Alias(row.model, o)) == "*"
    {
      var row, _ := SavedRowOrigin(entries, o, r);
      CleanRowNamed(entries, row);
      RefusedOnlyStar(row, r, o);
    }
    forall row | row in CleanRows(entries) && TrimSpace(Alias(row.model, o)) == "*"
      ensures exists r :: r in SaveTable(entries, o) && Validate(r).None?
    {
      CleanRowKept(entries, o, row);
      var r :| r in SaveTable(entries, o) && EqualFold(r.model, Alias(row.model, o));
      var source, _ := SavedRowOrigin(entries, o, r);
      CleanRowNamed(entries, source);
      RefusedOnlyStar(source, r, o);
      TrimmedStarFolds(Alias(row.model, o), r.model);
      TrimmedStarFolds(r.model, Alias(source.model, o));
    }
  }

  // The storable row "org/*" becomes a wildcard row, which a second pass would drop and the store refuses.
  lemma SaveNotIdempotent()
    ensures var entries, o := [ModelEntry("org/*", "", false, Unpriced)], Options(false, true);
      && SaveTable(SaveTable(entries, o), o) != SaveTable(entries, o)
      && exists r :: r in SaveTable(entries, o) && Validate(r).None?
  {
    hide SaveTable, Alias, Validate, FilterMap, Storable, TrimSpace, ModelEntry.Identity;
    var o := Options(false, true);
    var e := ModelEntry("org/*", "", false, Unpriced);
    WildcardAlias(e, o);
    FilterMapStep(Validate, [], e);
    assert [] + [e] == [e];
    assert CleanRows([e]) == FilterMap(Validate, []) + [e];
    assert e in CleanRows([e]);
    StarNotStorable();
    WildcardRowSpoils([e], o, e);
  }

  lemma WildcardRowSpoils(entries: Table, o: Options, row: ModelEntry)
    requires row in CleanRows(entries) && Alias(row.model, o) == "*"
    ensures SaveTable(SaveTable(entries, o), o) != SaveTable(entries, o)
    ensures exists r :: r in SaveTable(entries, o) && Validate(r).None?
  {
    hide SaveTable, Alias, Validate, CleanRows, Storable, TrimSpace;
    StarNotStorable();
    SaveIdempotentExactly(entries, o);
    SaveRefusedExactly(entries, o);
  }

  lemma StarNotStorable()
    ensures !Storable("*") && TrimSpace("*") == "*"
  {
  }

  lemma WildcardAlias(e: ModelEntry, o: Options)
    requires e == ModelEntry("org/*", "", false, Unpriced) && o == Options(false, true)
    ensures Validate(e) == Some(e) && Alias(e.model, o) == "*"
  {
    hide Validate;
    assert CleanRow(e) by {
      hide LastIndex;
    }
    CleanRowValid(e);
    assert Alias(e.model, o) == "*" by {
      hide CleanRow, Storable, TrimSpace;
      LastSlash(e.model, 3);
      assert e.model[4..] == "*";
    }
  }

  lemma LastSlash(s: string, k: nat)
    requires k < |s| && s[k] == '/' && forall i :: k < i < |s| ==> s[i] != '/'
    ensures LastIndex(s, '/') == k
  {
  }
}
