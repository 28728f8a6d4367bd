/** Save normalisation: cleaning, aliasing and de-duplicating the rows of a model table. */
module ModelSave {
  import opened Names
  import opened ModelTable
  import opened Seqs

  datatype Options = Options(lowercase: bool, stripPrefix: bool)

  /** How good a row is as the one kept for its identity. */
  datatype Candidate = Candidate(upstream: string, prefixed: bool, exact: bool)

  /** A row under its final name, with its identity and its rank. */
  datatype Named = Named(row: ModelEntry, id: RowId, candidate: Candidate)

  predicate HasControl(s: string) {
    exists i :: 0 <= i < |s| && s[i] in {'\0', '\r', '\n'}
  }

  /** The trimmed row, or None for a row that may not be stored. */
  function Validate(e: ModelEntry): Option<ModelEntry> {
    var name := TrimSpace(e.model);
    var redirect := TrimSpace(e.redirect);
    if name == "" || name == "*" || HasControl(name) || HasControl(redirect) || e.pricing.InvalidPrice? then None
    else Some(ModelEntry(name, redirect, e.disabled, if e.pricing.BlankPrice? then Unpriced else e.pricing))
  }

  predicate Strippable(name: string) {
    0 <= LastIndex(name, '/') < |name| - 1
  }

  function Alias(name: string, o: Options): (alias: string)
    ensures name != "" ==> alias != ""
    ensures |alias| <= |name|
  {
    var base := if o.stripPrefix && Strippable(name) then name[LastIndex(name, '/') + 1..] else name;
    if o.lowercase then Lower(base) else base
  }

  predicate SourcePrefixed(name: string, o: Options) {
    o.stripPrefix && Strippable(name)
  }

  predicate Prefer(c: Candidate, current: Candidate) {
    if c.exact != current.exact then c.exact
    else if c.prefixed != current.prefixed then !c.prefixed
    else StringLess(c.upstream, current.upstream)
  }

  // ---- specification -------------------------------------------------------------------------

  function CleanRows(entries: Table): Table {
    FilterMap(Validate, entries)
  }

  /** The alias the first row of `group` was given. */
  function Spelling(rows: Table, o: Options, group: string): Option<string> {
    if rows == [] then None
    else
      var earlier := Spelling(rows[..|rows| - 1], o, group);
      var alias := Alias(rows[|rows| - 1].model, o);
      if earlier.Some? then earlier else if Lower(alias) == group then Some(alias) else None
  }

  /** A cleaned row under the spelling of its group; the upstream it named is kept. */
  function NameRow(row: ModelEntry, alias: string, o: Options): Named {
    var upstream := row.Target();
    var named := row.(model := alias, redirect := if upstream == alias then "" else upstream);
    Named(named, named.Identity(), Candidate(upstream, SourcePrefixed(row.model, o), upstream == alias))
  }

  /** The spelling a row takes after the rows before it. */
  function Chosen(before: Table, row: ModelEntry, o: Options): string {
    var alias := Alias(row.model, o);
    var earlier := Spelling(before, o, Lower(alias));
    if earlier.Some? then earlier.value else alias
  }

  function NamedRows(rows: Table, o: Options): (named: seq<Named>)
    ensures |named| == |rows|
  {
    if rows == [] then []
    else
      var front, last := rows[..|rows| - 1], rows[|rows| - 1];
      NamedRows(front, o) + [NameRow(last, Chosen(front, last, o), o)]
  }

  function IndexOf(kept: seq<Named>, id: RowId): (k: int)
    ensures -1 <= k < |kept|
    ensures k >= 0 ==> kept[k].id == id
    ensures k < 0 ==> forall i :: 0 <= i < |kept| ==> kept[i].id != id
  {
    if kept == [] then -1
    else if kept[|kept| - 1].id == id then |kept| - 1
    else IndexOf(kept[..|kept| - 1], id)
  }

  function Place(kept: seq<Named>, x: Named): seq<Named> {
    var k := IndexOf(kept, x.id);
    if k < 0 then kept + [x] else if Prefer(x.candidate, kept[k].candidate) then kept[k := x] else kept
  }

  /** One row per identity, at the place of the identity's first row. */
  function Dedup(named: seq<Named>): seq<Named> {
    if named == [] then [] else Place(Dedup(named[..|named| - 1]), named[|named| - 1])
  }

  function Rows(named: seq<Named>): (t: Table)
    ensures |t| == |named|
    ensures forall i :: 0 <= i < |t| ==> t[i] == named[i].row
  {
    seq(|named|, i requires 0 <= i < |named| => named[i].row)
  }

  function SaveTable(entries: Table, o: Options): Table {
    Rows(Dedup(NamedRows(CleanRows(entries), o)))
  }

  // ---- the loop ------------------------------------------------------------------------------

  ghost predicate DistinctIds(kept: seq<Named>) {
    forall i, j :: 0 <= i < j < |kept| ==> kept[i].id != kept[j].id
  }

  ghost predicate Indexed(kept: seq<Named>, seen: map<RowId, nat>) {
    && DistinctIds(kept)
    && (forall k :: 0 <= k < |kept| ==> kept[k].id in seen)
    && (forall id :: id in seen ==> seen[id] < |kept| && kept[seen[id]].id == id)
  }

  ghost predicate Spelled(rows: Table, o: Options, spelling: map<string, string>) {
    && (forall g :: g in spelling <==> Spelling(rows, o, g).Some?)
    && (forall g :: g in spelling ==> Some(spelling[g]) == Spelling(rows, o, g))
  }

  method NormalizeForSave(entries: Table, o: Options) returns (normalized: Table)
    ensures normalized == SaveTable(entries, o)
  {
    hide Validate, Alias, Lower, SourcePrefixed, Prefer, ModelEntry.Identity, ModelEntry.Target;
    hide Spelling, Chosen, NamedRows, Dedup, IndexOf, FilterMap, Indexed, Spelled;
    normalized := [];
    var candidates: seq<Candidate> := [];
    var seen: map<RowId, nat> := map[];
    var spelling: map<string, string> := map[];
    ghost var kept: seq<Named> := [];
    EmptyTables(o);
    for i := 0 to |entries|
      invariant kept == Dedup(NamedRows(CleanRows(entries[..i]), o))
      invariant normalized == Rows(kept) && |candidates| == |kept|
      invariant forall k :: 0 <= k < |kept| ==> candidates[k] == kept[k].candidate
      invariant Indexed(kept, seen) && Spelled(CleanRows(entries[..i]), o, spelling)
    {
      assert entries[..i + 1] == entries[..i] + [entries[i]];
      FilterMapStep(Validate, entries[..i], entries[i]);
      var valid := Validate(entries[i]);
      if valid.None? {
        continue;
      }
      var clean := valid.value;
      var upstream := clean.Target();
      var alias := Alias(clean.model, o);
      var prefixed := SourcePrefixed(clean.model, o);
      var group := Lower(alias);
      RowStep(CleanRows(entries[..i]), clean, o, spelling);
      assert group in spelling ==> spelling[group := spelling[group]] == spelling;
      if group in spelling {
        alias := spelling[group];
      } else {
        spelling := spelling[group := alias];
      }
      assert alias == Chosen(CleanRows(entries[..i]), clean, o);
      ghost var x := NameRow(clean, alias, o);
      clean := clean.(model := alias, redirect := if upstream == alias then "" else upstream);
      var candidate := Candidate(upstream, prefixed, upstream == alias);
      var key := clean.Identity();
      PlaceStep(kept, x, seen);
      kept := Place(kept, x);
      if key in seen {
        var index := seen[key];
        if Prefer(candidate, candidates[index]) {
          candidates := candidates[index := candidate];
          normalized := normalized[index := clean];
        }
        continue;
      }
      seen := seen[key := |normalized|];
      candidates := candidates + [candidate];
      normalized := normalized + [clean];
    }
    assert entries[..|entries|] == entries;
  }

  lemma EmptyTables(o: Options)
    ensures Dedup(NamedRows(CleanRows([]), o)) == []
    ensures Indexed([], map[]) && Spelled(CleanRows([]), o, map[])
  {
  }

  lemma RowStep(before: Table, clean: ModelEntry, o: Options, spelling: map<string, string>)
    requires Spelled(before, o, spelling)
    ensures var group := Lower(Alias(clean.model, o));
            var chosen := Chosen(before, clean, o);
            && chosen == (if group in spelling then spelling[group] else Alias(clean.model, o))
            && Spelled(before + [clean], o, spelling[group := chosen])
            && Dedup(NamedRows(before + [clean], o)) == Place(Dedup(NamedRows(before, o)), NameRow(clean, chosen, o))
  {
    hide Alias, Lower, NameRow, Place;
    var rows := before + [clean];
    assert rows[..|rows| - 1] == before;
    var named := NamedRows(rows, o);
    assert named[..|named| - 1] == NamedRows(before, o);
  }

  lemma IndexedPosition(kept: seq<Named>, seen: map<RowId, nat>, id: RowId)
    requires Indexed(kept, seen)
    ensures IndexOf(kept, id) == if id in seen then seen[id] else -1
  {
    var k := IndexOf(kept, id);
    assert id in seen ==> kept[seen[id]].id == id;
    assert k >= 0 ==> kept[k].id in seen;
  }

  lemma PlaceStep(kept: seq<Named>, x: Named, seen: map<RowId, nat>)
    requires Indexed(kept, seen)
    ensures if x.id in seen then seen[x.id] == IndexOf(kept, x.id) else IndexOf(kept, x.id) < 0
    ensures Indexed(Place(kept, x), if x.id in seen then seen else seen[x.id := |kept|])
  {
    hide Prefer, IndexOf;
    IndexedPosition(kept, seen, x.id);
  }
}
