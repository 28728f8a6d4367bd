/** The resource budget of a credential import: reserving while archives are read, and refunding,
    re-reserving and restoring while nested containers are expanded. */
module ImportBudget {
  import opened Seqs

  newtype byte = x: int | 0 <= x < 0x100
  newtype uint64 = x: int | 0 <= x < 0x1_0000_0000_0000_0000

  const MAX_FILE: uint64 := 0x10_0000
  const MAX_ARCHIVE: uint64 := 0x80_0000
  const MAX_ENTRIES := 10000
  const MAX_EXPANDED: uint64 := 0x200_0000

  /** A credential file; one with an error is reported as failed. */
  datatype File = File(fileName: string, sortName: string, raw: seq<byte>, error: Option<string>)

  datatype Reading = Files(files: seq<File>) | Rejected(error: string)

  /** The size of a byte slice as the budget sees it; slices are far below the word size. */
  function Size(raw: seq<byte>): uint64
    requires |raw| < 0x1_0000_0000_0000_0000
  {
    |raw| as uint64
  }

  function Bytes(files: seq<File>): nat {
    if files == [] then 0 else Bytes(files[..|files| - 1]) + |files[|files| - 1].raw|
  }

  lemma BytesStep(files: seq<File>, f: File)
    ensures Bytes(files + [f]) == Bytes(files) + |f.raw|
  {
    assert (files + [f])[..|files|] == files;
  }

  lemma {:induction false} BytesConcat(a: seq<File>, b: seq<File>)
    ensures Bytes(a + b) == Bytes(a) + Bytes(b)
  {
    if b == [] {
      assert a + b == a;
    } else {
      assert (a + b)[..|a + b| - 1] == a + b[..|b| - 1];
      BytesConcat(a, b[..|b| - 1]);
    }
  }

  function Failure(fileName: string, error: string): File {
    File(fileName, fileName, [], Some(error))
  }

  // ---- the budget ----------------------------------------------------------------------------

  /** What a budget has counted and reserved. */
  datatype Used = Used(entries: int, size: int)

  predicate Within(u: Used) {
    0 <= u.entries <= MAX_ENTRIES && 0 <= u.size <= MAX_EXPANDED as int
  }

  const NOTHING := Used(0, 0)

  /** Counts one entry; an entry that does not fit uses the whole budget up. */
  function Reserved(u: Used, size: nat): (Used, bool) {
    if u.entries >= MAX_ENTRIES then (u, false)
    else if u.size + size > MAX_EXPANDED as int then (Used(u.entries + 1, MAX_EXPANDED as int), false)
    else (Used(u.entries + 1, u.size + size), true)
  }

  class Budget {
    var entries: int
    var expandedSize: uint64

    ghost function Value(): Used
      reads this
    {
      Used(entries, expandedSize as int)
    }

    constructor ()
      ensures Value() == NOTHING
    {
      entries, expandedSize := 0, 0;
    }

    method Reserve(size: uint64) returns (ok: bool)
      requires Within(Value())
      modifies this
      ensures Within(Value()) && (Value(), ok) == Reserved(old(Value()), size as nat)
      ensures ok <==> old(entries) < MAX_ENTRIES && old(expandedSize) as int + size as int <= MAX_EXPANDED as int
      ensures ok ==> entries == old(entries) + 1 && expandedSize as int == old(expandedSize) as int + size as int
      ensures !ok && old(entries) == MAX_ENTRIES ==> entries == old(entries) && expandedSize == old(expandedSize)
      ensures !ok && old(entries) < MAX_ENTRIES ==> entries == old(entries) + 1 && expandedSize == MAX_EXPANDED
    {
      if entries >= MAX_ENTRIES {
        return false;
      }
      entries := entries + 1;
      var remaining := MAX_EXPANDED - expandedSize;
      if size > remaining {
        expandedSize := MAX_EXPANDED;
        return false;
      }
      expandedSize := expandedSize + size;
      ok := true;
    }
  }

  // ---- archives ------------------------------------------------------------------------------

  datatype EntryKind = Directory | Regular | Irregular

  /** An archive entry; `declared` is what its header says, `content` what reading it yields. */
  datatype Entry = Entry(name: string, kind: EntryKind, declared: uint64, content: seq<byte>, readable: bool)

  /** How an upload's entries are named, judged and turned into files. */
  datatype Names = Names(validPath: string -> bool, credential: string -> bool, judge: seq<byte> -> Option<string>)

  /** The file an accepted entry becomes. */
  function EntryFile(names: Names, archive: string, e: Entry): File {
    File(archive + "/" + e.name, e.name, e.content, names.judge(e.content))
  }

  predicate Credential(names: Names, e: Entry) {
    e.kind.Regular? && names.credential(e.name)
  }

  /** The credential files of an archive, in its order. */
  function ArchiveFiles(names: Names, archive: string, entries: seq<Entry>): seq<File> {
    FilterMap((e: Entry) => if Credential(names, e) then Some(EntryFile(names, archive, e)) else None, entries)
  }

  function Min(a: uint64, b: uint64): uint64 {
    if a < b then a else b
  }

  /** The bytes an entry has beyond its declared size. */
  function Beyond(e: Entry): nat {
    if |e.content| > e.declared as int then |e.content| - e.declared as int else 0
  }

  /** Reading an archive: still going, with the files so far, or broken off. */
  datatype Walked = Going(files: seq<File>, used: Used) | Broken(used: Used)

  function EntryStep(names: Names, archive: string, w: Walked, e: Entry): Walked {
    if w.Broken? then w
    else
      var (used, ok) := Reserved(w.used, e.declared as nat);
      if !ok then Broken(used)
      else if e.kind.Directory? then w.(used := used)
      else if e.kind.Irregular? || !names.validPath(e.name) then Broken(used)
      else if !names.credential(e.name) then w.(used := used)
      else if e.declared > MAX_FILE || !e.readable then Broken(used)
      else if |e.content| > MAX_FILE as int || used.size + Beyond(e) > MAX_EXPANDED as int then
        Broken(Used(used.entries, MAX_EXPANDED as int))
      else Going(w.files + [EntryFile(names, archive, e)], Used(used.entries, used.size + Beyond(e)))
  }

  function ArchiveWalk(names: Names, archive: string, entries: seq<Entry>, start: Used): Walked {
    if entries == [] then Going([], start)
    else
      EntryStep(names, archive, ArchiveWalk(names, archive, entries[..|entries| - 1], start), entries[|entries| - 1])
  }

  lemma WalkStep(names: Names, archive: string, entries: seq<Entry>, start: Used, i: nat)
    requires i < |entries|
    ensures ArchiveWalk(names, archive, entries[..i + 1], start) ==
            EntryStep(names, archive, ArchiveWalk(names, archive, entries[..i], start), entries[i])
  {
    hide EntryStep;
    assert entries[..i + 1][..i] == entries[..i];
  }

  lemma {:induction false} BrokenStays(names: Names, archive: string, entries: seq<Entry>, start: Used, i: nat)
    requires i <= |entries| && ArchiveWalk(names, archive, entries[..i], start).Broken?
    ensures ArchiveWalk(names, archive, entries, start) == ArchiveWalk(names, archive, entries[..i], start)
    decreases |entries| - i
  {
    if i == |entries| {
      assert entries[..i] == entries;
    } else {
      WalkStep(names, archive, entries, start, i);
      BrokenStays(names, archive, entries, start, i + 1);
    }
  }

  /** The reading of an archive ended as the walk did. */
  ghost predicate ReadAs(r: Reading, used: Used, w: Walked) {
    used == w.used && if w.Going? then r == Files(w.files) else r.Rejected?
  }

  /** Reads one ZIP entry already reserved at its declared size, and reserves what it has beyond it. */
  method ReadZipEntry(e: Entry, b: Budget) returns (raw: Option<seq<byte>>)
    requires Within(b.Value()) && e.declared <= MAX_FILE && |e.content| < 0x1_0000_0000_0000_0000
    modifies b
    ensures Within(b.Value()) && b.entries == old(b.entries)
    ensures raw.Some? <==> e.readable && |e.content| <= MAX_FILE as int &&
                           old(b.expandedSize) as int + Beyond(e) <= MAX_EXPANDED as int
    ensures raw.Some? ==> raw.value == e.content && b.expandedSize as int == old(b.expandedSize) as int + Beyond(e)
    ensures raw.None? ==> b.expandedSize == if e.readable then MAX_EXPANDED else old(b.expandedSize)
  {
    if !e.readable {
      return None;
    }
    var remaining := MAX_EXPANDED - b.expandedSize;
    var maxActualSize := Min(e.declared + remaining, MAX_FILE);
    var actual := Size(e.content);
    if actual > maxActualSize || actual > MAX_FILE {
      b.expandedSize := MAX_EXPANDED;
      return None;
    }
    if actual > e.declared {
      b.expandedSize := b.expandedSize + (actual - e.declared);
    }
    raw := Some(e.content);
  }

  method ExpandZip(archive: string, entries: seq<Entry>, names: Names, b: Budget) returns (r: Reading)
    requires Within(b.Value()) && forall e :: e in entries ==> |e.content| < 0x1_0000_0000_0000_0000
    modifies b
    ensures Within(b.Value()) && ReadAs(r, b.Value(), ArchiveWalk(names, archive, entries, old(b.Value())))
  {
    hide ArchiveWalk;
    var files: seq<File> := [];
    ghost var start := b.Value();
    NoEntries(names, archive, start);
    for i := 0 to |entries|
      invariant Within(b.Value()) && ArchiveWalk(names, archive, entries[..i], start) == Going(files, b.Value())
    {
      var e := entries[i];
      WalkStep(names, archive, entries, start, i);
      ghost var w := EntryStep(names, archive, Going(files, b.Value()), e);
      if w.Broken? { BrokenStays(names, archive, entries, start, i + 1); }
      var ok := b.Reserve(e.declared);
      if !ok {
        return Rejected("budget");
      }
      if e.kind.Directory? {
        continue;
      }
      if e.kind.Irregular? {
        return Rejected("not a regular file");
      }
      if !names.validPath(e.name) {
        return Rejected("invalid path");
      }
      if !names.credential(e.name) {
        continue;
      }
      if e.declared > MAX_FILE {
        return Rejected("too large");
      }
      var raw := ReadZipEntry(e, b);
      if raw.None? {
        return Rejected("unreadable");
      }
      files := files + [File(archive + "/" + e.name, e.name, raw.value, names.judge(raw.value))];
    }
    assert entries[..|entries|] == entries;
    r := Files(files);
  }

  lemma NoEntries(names: Names, archive: string, start: Used)
    ensures ArchiveWalk(names, archive, [], start) == Going([], start)
    ensures ArchiveFiles(names, archive, []) == [] && Bytes([]) == 0 && TotalCost(names, []) == 0
  {
  }

  /** A tar.gz archive; the tar reader yields at most the declared bytes of an entry. */
  method ReadTar(archive: string, entries: seq<Entry>, names: Names, b: Budget) returns (r: Reading)
    requires Within(b.Value()) && forall e :: e in entries ==> |e.content| <= e.declared as int
    modifies b
    ensures Within(b.Value()) && ReadAs(r, b.Value(), ArchiveWalk(names, archive, entries, old(b.Value())))
  {
    hide ArchiveWalk;
    var files: seq<File> := [];
    ghost var start := b.Value();
    NoEntries(names, archive, start);
    for i := 0 to |entries|
      invariant Within(b.Value()) && ArchiveWalk(names, archive, entries[..i], start) == Going(files, b.Value())
    {
      var e := entries[i];
      assert e in entries;
      WalkStep(names, archive, entries, start, i);
      ghost var w := EntryStep(names, archive, Going(files, b.Value()), e);
      if w.Broken? { BrokenStays(names, archive, entries, start, i + 1); }
      var ok := b.Reserve(e.declared);
      if !ok {
        return Rejected("budget");
      }
      if e.kind.Directory? {
        continue;
      }
      if e.kind.Irregular? {
        return Rejected("not a regular file");
      }
      if !names.validPath(e.name) {
        return Rejected("invalid path");
      }
      if !names.credential(e.name) {
        continue;
      }
      if e.declared > MAX_FILE || !e.readable || |e.content| > MAX_FILE as int {
        return Rejected("too large or unreadable");
      }
      files := files + [File(archive + "/" + e.name, e.name, e.content, names.judge(e.content))];
    }
    assert entries[..|entries|] == entries;
    r := Files(files);
  }

  /** An entry that does not break the archive, as far as it alone is concerned. */
  predicate Acceptable(names: Names, e: Entry) {
    && !e.kind.Irregular?
    && (e.kind.Regular? ==> names.validPath(e.name))
    && (Credential(names, e) ==> e.declared <= MAX_FILE && e.readable && |e.content| <= MAX_FILE as int)
  }

  /** What an entry takes from the budget: its declared size, or what a credential holds if that is more. */
  function Cost(names: Names, e: Entry): nat {
    e.declared as nat + if Credential(names, e) then Beyond(e) else 0
  }

  function TotalCost(names: Names, entries: seq<Entry>): nat {
    if entries == [] then 0 else TotalCost(names, entries[..|entries| - 1]) + Cost(names, entries[|entries| - 1])
  }

  ghost predicate ArchiveFits(names: Names, entries: seq<Entry>, start: Used) {
    && (forall e :: e in entries ==> Acceptable(names, e))
    && start.entries + |entries| <= MAX_ENTRIES
    && start.size + TotalCost(names, entries) <= MAX_EXPANDED as int
  }

  /** An archive is read to its end if and only if each entry is acceptable and together they fit. Then its
      credential files come out in order, every entry is counted, and the files are paid for; a broken one
      keeps to the limits too. */
  lemma {:induction false} ArchiveExactly(names: Names, archive: string, entries: seq<Entry>, start: Used)
    requires Within(start)
    ensures var w := ArchiveWalk(names, archive, entries, start);
      && (w.Going? <==> ArchiveFits(names, entries, start))
      && (w.Going? ==>
            && w.files == ArchiveFiles(names, archive, entries)
            && w.used == Used(start.entries + |entries|, start.size + TotalCost(names, entries))
            && Bytes(w.files) <= TotalCost(names, entries)
            && forall f :: f in w.files ==> |f.raw| <= MAX_FILE as int)
      && Within(w.used) && start.entries <= w.used.entries && start.size <= w.used.size
  {
    hide EntryFile, ArchiveFiles, Bytes, Acceptable;
    if entries == [] {
      NoEntries(names, archive, start);
    } else {
      hide EntryStep;
      var front, e := entries[..|entries| - 1], entries[|entries| - 1];
      assert entries == front + [e];
      ArchiveExactly(names, archive, front, start);
      FilesStep(names, archive, front, e);
      StepExactly(names, archive, ArchiveWalk(names, archive, front, start), e);
      var w := ArchiveWalk(names, archive, front, start);
      if w.Going? { BytesStep(w.files, EntryFile(names, archive, e)); }
    }
  }

  lemma FilesStep(names: Names, archive: string, entries: seq<Entry>, e: Entry)
    ensures ArchiveFiles(names, archive, entries + [e]) ==
            ArchiveFiles(names, archive, entries) + if Credential(names, e) then [EntryFile(names, archive, e)] else []
  {
    hide Credential, EntryFile;
    FilterMapStep((x: Entry) => if Credential(names, x) then Some(EntryFile(names, archive, x)) else None, entries, e);
  }

  /** An archive yields exactly its regular entries with a credential's name, each under the archive's name and its own
      with what it holds and what is wrong with that. */
  lemma ArchiveFilesTell(names: Names, archive: string, entries: seq<Entry>)
    ensures forall f :: f in ArchiveFiles(names, archive, entries) <==>
      exists e :: e in entries && e.kind.Regular? && names.credential(e.name) &&
                  f == File(archive + "/" + e.name, e.name, e.content, names.judge(e.content))
  {
    var accept := (e: Entry) => if Credential(names, e) then Some(EntryFile(names, archive, e)) else None;
    FilterMapMembers(accept, entries);
    forall e: Entry, f: File
      ensures accept(e) == Some(f) <==>
        e.kind.Regular? && names.credential(e.name) &&
        f == File(archive + "/" + e.name, e.name, e.content, names.judge(e.content)) {}
    hide FilterMap, Credential, EntryFile;
  }

  lemma StepExactly(names: Names, archive: string, w: Walked, e: Entry)
    requires Within(w.used)
    ensures var after := EntryStep(names, archive, w, e);
      && Within(after.used) && w.used.entries <= after.used.entries && w.used.size <= after.used.size
      && (after.Going? <==> w.Going? && Acceptable(names, e) && w.used.entries < MAX_ENTRIES &&
                            w.used.size + Cost(names, e) <= MAX_EXPANDED as int)
      && (after.Going? ==>
            && after.used == Used(w.used.entries + 1, w.used.size + Cost(names, e))
            && after.files == w.files + (if Credential(names, e) then [EntryFile(names, archive, e)] else [])
            && (Credential(names, e) ==>
                  |EntryFile(names, archive, e).raw| <= MAX_FILE as int &&
                      |EntryFile(names, archive, e).raw| <= Cost(names, e)))
  {
  }

  // ---- the upload ----------------------------------------------------------------------------

  /** An uploaded file. A tar.gz archive may also turn out damaged after its last entry. */
  datatype Upload =
    | Plain(name: string, raw: seq<byte>)
    | Zip(name: string, raw: seq<byte>, opens: bool, entries: seq<Entry>)
    | TarGz(name: string, raw: seq<byte>, opens: bool, entries: seq<Entry>, sound: bool)

  predicate WellFormed(u: Upload) {
    && |u.raw| < 0x1_0000_0000_0000_0000
    && (u.Zip? ==> forall e :: e in u.entries ==> |e.content| < 0x1_0000_0000_0000_0000)
    && (u.TarGz? ==> forall e :: e in u.entries ==> |e.content| <= e.declared as int)
  }

  function UploadWalk(u: Upload, names: Names, start: Used): Walked {
    match u
    case Plain(name, raw) =>
      var (used, ok) := Reserved(start, |raw|);
      if ok then Going([File(name, name, raw, names.judge(raw))], used) else Broken(used)
    case Zip(name, _, opens, entries) =>
      if opens then ArchiveWalk(names, name, entries, start) else Broken(start)
    case TarGz(name, _, opens, entries, sound) =>
      if !opens then Broken(start)
      else
        var w := ArchiveWalk(names, name, entries, start);
        if w.Going? && !sound then Broken(w.used) else w
  }

  method ExpandUpload(u: Upload, names: Names, b: Budget) returns (r: Reading)
    requires Within(b.Value()) && WellFormed(u)
    modifies b
    ensures Within(b.Value()) && ReadAs(r, b.Value(), UploadWalk(u, names, old(b.Value())))
  {
    hide ArchiveWalk;
    match u
    case Plain(name, raw) =>
      var ok := b.Reserve(Size(raw));
      r := if ok then Files([File(name, name, raw, names.judge(raw))]) else Rejected("budget");
    case Zip(name, _, opens, entries) =>
      if !opens { return Rejected("open"); }
      r := ExpandZip(name, entries, names, b);
    case TarGz(name, _, opens, entries, sound) =>
      if !opens { return Rejected("open"); }
      r := ReadTar(name, entries, names, b);
      if r.Files? && !sound { return Rejected("damaged"); }
  }

  function UploadLimit(u: Upload): uint64 {
    if u.Plain? then MAX_FILE else MAX_ARCHIVE
  }

  /** What one upload adds: its files, or one failure in its name. */
  function UploadPart(u: Upload, names: Names, start: Used): (seq<File>, Used) {
    if |u.raw| == 0 || |u.raw| > UploadLimit(u) as int then ([Failure(u.name, "invalid")], start)
    else
      var w := UploadWalk(u, names, start);
      if w.Going? && w.files != [] then (w.files, w.used) else ([Failure(u.name, "invalid")], w.used)
  }

  function Received(uploads: seq<Upload>, names: Names): (seq<File>, Used) {
    if uploads == [] then ([], NOTHING)
    else
      var (files, used) := Received(uploads[..|uploads| - 1], names);
      var (more, after) := UploadPart(uploads[|uploads| - 1], names, used);
      (files + more, after)
  }

  method ParseUploads(uploads: seq<Upload>, names: Names) returns (files: seq<File>, b: Budget)
    requires forall u :: u in uploads ==> WellFormed(u)
    ensures fresh(b) && (files, b.Value()) == Received(uploads, names)
  {
    hide UploadWalk, WellFormed;
    b := new Budget();
    files := [];
    for i := 0 to |uploads|
      invariant fresh(b) && Within(b.Value())
      invariant (files, b.Value()) == Received(uploads[..i], names)
    {
      assert uploads[..i + 1][..i] == uploads[..i];
      var u := uploads[i];
      assert u in uploads;
      assert WellFormed(u);
      assert |u.raw| < 0x1_0000_0000_0000_0000 by { UploadSize(u); }
      var failure := Failure(u.name, "invalid");
      if |u.raw| == 0 || Size(u.raw) > UploadLimit(u) {
        files := files + [failure];
        continue;
      }
      var r := ExpandUpload(u, names, b);
      if r.Rejected? || r.files == [] {
        files := files + [failure];
        continue;
      }
      files := files + r.files;
    }
    assert uploads[..|uploads|] == uploads;
  }

  lemma UploadSize(u: Upload)
    requires WellFormed(u)
    ensures |u.raw| < 0x1_0000_0000_0000_0000
  {
  }

  /** The files an upload holds. */
  function OwnFiles(u: Upload, names: Names): seq<File> {
    match u
    case Plain(name, raw) => [File(name, name, raw, names.judge(raw))]
    case Zip(name, _, _, entries) => ArchiveFiles(names, name, entries)
    case TarGz(name, _, _, entries, _) => ArchiveFiles(names, name, entries)
  }

  /** The upload has a valid size, can be read, holds credentials, and fits into what is left. */
  ghost predicate Admissible(u: Upload, names: Names, start: Used) {
    && 0 < |u.raw| <= (if u.Plain? then 0x10_0000 else 0x80_0000) && OwnFiles(u, names) != []
    && match u
       case Plain(_, raw) => start.entries < MAX_ENTRIES && start.size + |raw| <= MAX_EXPANDED as int
       case Zip(_, _, opens, entries) => opens && ArchiveFits(names, entries, start)
       case TarGz(_, _, opens, entries, sound) => opens && sound && ArchiveFits(names, entries, start)
  }

  lemma PartExactly(u: Upload, names: Names, start: Used)
    requires Within(start)
    ensures var (files, used) := UploadPart(u, names, start);
      && files == (if Admissible(u, names, start) then OwnFiles(u, names) else [Failure(u.name, "invalid")])
      && Within(used) && start.size + Bytes(files) <= used.size
  {
    hide ArchiveWalk, ArchiveFits, ArchiveFiles, Bytes;
    Single(Failure(u.name, "invalid"));
    if u.Plain? {
      Single(File(u.name, u.name, u.raw, names.judge(u.raw)));
    } else {
      ArchiveExactly(names, u.name, u.entries, start);
    }
  }

  /** The files of every upload that is admissible when its turn comes, and one failure for every other. */
  ghost function Arrived(uploads: seq<Upload>, names: Names): seq<File> {
    if uploads == [] then []
    else
      var front, u := uploads[..|uploads| - 1], uploads[|uploads| - 1];
      Arrived(front, names) +
      if Admissible(u, names, Received(front, names).1) then OwnFiles(u, names) else [Failure(u.name, "invalid")]
  }

  /** Whatever is uploaded, exactly the files of the admissible uploads come out, in order, with one failure
      for each other one; they fit into the reserved bytes, and the budget keeps to its limits. */
  lemma {:induction false} ReceivedExactly(uploads: seq<Upload>, names: Names)
    ensures var (files, used) := Received(uploads, names);
      files == Arrived(uploads, names) && Bytes(files) <= used.size && Within(used)
  {
    hide UploadPart, Admissible, OwnFiles, Bytes;
    if uploads == [] {
      NoEntries(Names(_ => true, _ => true, _ => None), "", NOTHING);
    } else {
      var front, u := uploads[..|uploads| - 1], uploads[|uploads| - 1];
      ReceivedExactly(front, names);
      var (files, used) := Received(front, names);
      PartExactly(u, names, used);
      BytesConcat(files, UploadPart(u, names, used).0);
    }
  }

  // ---- nested containers ---------------------------------------------------------------------

  /** One account of a container after decoding. `Foreign` makes the whole file not a container. */
  datatype Child = Account(file: File) | Undecodable(error: string) | Foreign

  /** How a container decoder reads a file. */
  datatype Container =
    | NotAContainer
    | Malformed(error: string)
    | Accounts(children: seq<Child>, ending: Option<string>)

  /** The item an account becomes: one of a size no credential has is emptied and marked. */
  function Checked(f: File): File {
    if f.error.None? && (|f.raw| == 0 || |f.raw| > MAX_FILE as int)
    then f.(raw := [], error := Some("credential file size is invalid")) else f
  }

  function CheckedAll(children: seq<Child>): seq<File> {
    FilterMap((c: Child) => if c.Account? then Some(Checked(c.file)) else None, children)
  }

  method ReserveExpanded(f: File, b: Budget) returns (item: File, ok: bool)
    requires Within(b.Value()) && |f.raw| < 0x1_0000_0000_0000_0000
    modifies b
    ensures item == Checked(f) && Within(b.Value()) && (b.Value(), ok) == Reserved(old(b.Value()), |item.raw|)
  {
    item := f;
    if item.error.None? && (|item.raw| == 0 || |item.raw| > MAX_FILE as int) {
      item := item.(raw := [], error := Some("credential file size is invalid"));
    }
    ok := b.Reserve(Size(item.raw));
  }

  /** Going over the accounts: still counting, failing with the first error, or no container after all. */
  datatype Counted = Counting(items: seq<File>, used: Used) | Failing(error: string) | Declining

  function ChildStep(w: Counted, c: Child): Counted {
    if !w.Counting? then w
    else match c
      case Undecodable(error) => Failing(error)
      case Foreign => Declining
      case Account(file) =>
        var (used, ok) := Reserved(w.used, |Checked(file).raw|);
        if ok then Counting(w.items + [Checked(file)], used) else Failing("budget")
  }

  function ChildWalk(children: seq<Child>, start: Used): Counted {
    if children == [] then Counting([], start)
    else ChildStep(ChildWalk(children[..|children| - 1], start), children[|children| - 1])
  }

  lemma ChildWalkStep(children: seq<Child>, start: Used, i: nat)
    requires i < |children|
    ensures ChildWalk(children[..i + 1], start) == ChildStep(ChildWalk(children[..i], start), children[i])
  {
    hide ChildStep;
    assert children[..i + 1][..i] == children[..i];
  }

  lemma {:induction false} StoppedStays(children: seq<Child>, start: Used, i: nat)
    requires i <= |children| && !ChildWalk(children[..i], start).Counting?
    ensures ChildWalk(children, start) == ChildWalk(children[..i], start)
    decreases |children| - i
  {
    if i == |children| {
      assert children[..i] == children;
    } else {
      ChildWalkStep(children, start, i);
      StoppedStays(children, start, i + 1);
    }
  }

  datatype Expansion = Declined | Expanded(items: seq<File>)

  function Failed(file: File, error: string): Expansion {
    Expanded([Failure(file.fileName, error)])
  }

  /** Without its own reservation. */
  function Refunded(file: File, used: Used): Used {
    Used(used.entries - 1, used.size - |file.raw|)
  }

  /** What a decoder makes of a file, and the budget after it: that of the accounts when the expansion
      succeeds, the one before it in every other case. */
  function Outcome(file: File, container: Container, used: Used): (Expansion, Used) {
    match container
    case NotAContainer => (Declined, used)
    case Malformed(error) => (Failed(file, error), used)
    case Accounts(children, ending) =>
      if children == [] then (Failed(file, "empty"), used)
      else match ChildWalk(children, Refunded(file, used))
        case Failing(error) => (Failed(file, error), used)
        case Declining => (Declined, used)
        case Counting(items, after) =>
          if ending.Some? then (Failed(file, ending.value), used) else (Expanded(items), after)
  }

  predicate Sane(c: Container) {
    c.Accounts? ==> forall x :: x in c.children && x.Account? ==> |x.file.raw| < 0x1_0000_0000_0000_0000
  }

  predicate Covers(used: Used, file: File) {
    Within(used) && used.entries > 0 && |file.raw| <= used.size
  }

  /** Gives a container's own reservation back, reserves each account, and takes everything back when
      the expansion fails or the container turns out to be none. Giving back never underflows. */
  method ExpandContainer(file: File, container: Container, b: Budget) returns (r: Expansion)
    requires Covers(b.Value(), file) && Sane(container)
    modifies b
    ensures (r, b.Value()) == Outcome(file, container, old(b.Value())) && Within(b.Value())
  {
    hide ChildWalk, Checked;
    if container.NotAContainer? {
      return Declined;
    }
    if container.Malformed? {
      return Expanded([Failure(file.fileName, container.error)]);
    }
    if container.children == [] {
      return Expanded([Failure(file.fileName, "empty")]);
    }
    var entries, expandedSize := b.entries, b.expandedSize;
    b.entries := b.entries - 1;
    b.expandedSize := b.expandedSize - Size(file.raw);
    var items: seq<File> := [];
    var children := container.children;
    ghost var start := Refunded(file, old(b.Value()));
    NoChildren(start);
    for i := 0 to |children|
      invariant Within(b.Value()) && ChildWalk(children[..i], start) == Counting(items, b.Value())
    {
      assert children[i] in children;
      ChildWalkStep(children, start, i);
      ghost var w := ChildStep(Counting(items, b.Value()), children[i]);
      if !w.Counting? { StoppedStays(children, start, i + 1); }
      if children[i].Undecodable? {
        b.entries, b.expandedSize := entries, expandedSize;
        return Expanded([Failure(file.fileName, children[i].error)]);
      }
      if children[i].Foreign? {
        b.entries, b.expandedSize := entries, expandedSize;
        return Declined;
      }
      var item, ok := ReserveExpanded(children[i].file, b);
      if !ok {
        b.entries, b.expandedSize := entries, expandedSize;
        return Expanded([Failure(file.fileName, "budget")]);
      }
      items := items + [item];
    }
    assert children[..|children|] == children;
    if container.ending.Some? {
      b.entries, b.expandedSize := entries, expandedSize;
      return Expanded([Failure(file.fileName, container.ending.value)]);
    }
    r := Expanded(items);
  }

  /** Accounts come out in order, each as decoded, unless it is blank or larger than a credential may be: then it is
      emptied and marked, and takes no bytes. */
  lemma {:induction false} CheckedTells(children: seq<Child>)
    requires forall c :: c in children ==> c.Account?
    ensures |CheckedAll(children)| == |children|
    ensures forall i :: 0 <= i < |children| ==>
      var f, item := children[i].file, CheckedAll(children)[i];
      && item.fileName == f.fileName && item.sortName == f.sortName
      && (f.error.Some? || 0 < |f.raw| <= 0x10_0000 ==> item == f)
      && (f.error.None? && !(0 < |f.raw| <= 0x10_0000) ==> item.raw == [] && item.error.Some?)
  {
    hide FilterMap;
    if children == [] {
      NoChildren(NOTHING);
    } else {
      var front, c := children[..|children| - 1], children[|children| - 1];
      assert children == front + [c];
      CheckedTells(front);
      CheckedStep(front, c);
      assert forall i :: 0 <= i < |front| ==> children[i] == front[i];
    }
  }

  lemma NoChildren(start: Used)
    ensures ChildWalk([], start) == Counting([], start) && CheckedAll([]) == [] && Bytes([]) == 0
  {
  }

  /** The first `n` children are accounts and fit. */
  ghost predicate ChildrenFit(children: seq<Child>, n: nat, start: Used)
    requires n <= |children|
  {
    && (forall k :: 0 <= k < n ==> children[k].Account?)
    && start.entries + n <= MAX_ENTRIES
    && start.size + Bytes(CheckedAll(children[..n])) <= MAX_EXPANDED as int
  }

  /** The first child that is no account follows accounts that fit, and makes the file no container. */
  ghost predicate ForeignFirst(children: seq<Child>, start: Used) {
    exists i :: 0 <= i < |children| && children[i].Foreign? && ChildrenFit(children, i, start)
  }

  lemma CheckedStep(children: seq<Child>, c: Child)
    ensures CheckedAll(children + [c]) == CheckedAll(children) + if c.Account? then [Checked(c.file)] else []
    ensures Bytes(CheckedAll(children)) <= Bytes(CheckedAll(children + [c]))
  {
    hide Checked, Bytes;
    FilterMapStep((x: Child) => if x.Account? then Some(Checked(x.file)) else None, children, c);
    if c.Account? { BytesStep(CheckedAll(children), Checked(c.file)); }
    assert CheckedAll(children) + [] == CheckedAll(children);
  }

  lemma FitsStep(children: seq<Child>, n: nat, start: Used)
    requires n < |children|
    ensures ChildrenFit(children, n + 1, start) <==>
            ChildrenFit(children, n, start) && children[n].Account? && start.entries + n < MAX_ENTRIES &&
            start.size + Bytes(CheckedAll(children[..n])) + |Checked(children[n].file).raw| <= MAX_EXPANDED as int
  {
    hide Checked, Bytes, CheckedAll;
    assert children[..n + 1] == children[..n] + [children[n]];
    CheckedStep(children[..n], children[n]);
    if children[n].Account? { BytesStep(CheckedAll(children[..n]), Checked(children[n].file)); }
  }

  /** The accounts are all counted if and only if every child is one and together they fit; the container is
      declined if and only if a foreign child follows accounts that fit. */
  lemma {:induction false} ChildWalkExactly(children: seq<Child>, n: nat, start: Used)
    requires n <= |children| && Within(start)
    ensures var w := ChildWalk(children[..n], start);
      && (w.Counting? <==> ChildrenFit(children, n, start))
      && (w.Counting? ==> w.items == CheckedAll(children[..n]) && |w.items| == n &&
                          w.used == Used(start.entries + n, start.size + Bytes(w.items)))
      && (w.Declining? <==> exists i :: 0 <= i < n && children[i].Foreign? && ChildrenFit(children, i, start))
  {
    hide Checked, Bytes, CheckedAll, ChildrenFit;
    if n == 0 {
      NoChildren(start);
      assert ChildrenFit(children, 0, start) by { NothingFits(children, start); }
      assert children[..0] == [];
    } else {
      ChildWalkExactly(children, n - 1, start);
      ChildWalkStep(children, start, n - 1);
      FitsStep(children, n - 1, start);
      assert children[..n] == children[..n - 1] + [children[n - 1]];
      CheckedStep(children[..n - 1], children[n - 1]);
      var w := ChildWalk(children[..n - 1], start);
      if w.Counting? && children[n - 1].Account? { BytesStep(w.items, Checked(children[n - 1].file)); }
    }
  }

  lemma NothingFits(children: seq<Child>, start: Used)
    requires Within(start)
    ensures ChildrenFit(children, 0, start)
  {
    NoChildren(start);
    assert children[..0] == [];
  }

  /** The container is complete and its accounts fit in the place of the file. */
  ghost predicate ContainerFits(file: File, c: Container, used: Used) {
    && c.Accounts? && c.children != [] && c.ending.None?
    && ChildrenFit(c.children, |c.children|, Refunded(file, used))
  }

  /** A fitting container yields its accounts and turns one entry and its bytes into theirs. Otherwise the
      budget is as before, and the file is declined exactly when it is no container or a foreign child comes
      first, and fails under its own name if not. */
  lemma OutcomeExactly(file: File, c: Container, used: Used)
    requires Covers(used, file)
    ensures var (r, after) := Outcome(file, c, used);
      && (ContainerFits(file, c, used) ==>
            && r == Expanded(CheckedAll(c.children)) && |r.items| == |c.children|
            && after == Used(used.entries - 1 + |r.items|, used.size - |file.raw| + Bytes(r.items)))
      && (!ContainerFits(file, c, used) ==> after == used && (r.Declined? || exists error :: r == Failed(file, error)))
      && (r.Declined? <==> c.NotAContainer? || (c.Accounts? && ForeignFirst(c.children, Refunded(file, used))))
      && Within(after)
  {
    hide ChildWalk, CheckedAll, Bytes, ChildrenFit;
    if c.Accounts? {
      var start := Refunded(file, used);
      assert c.children[..|c.children|] == c.children;
      ChildWalkExactly(c.children, |c.children|, start);
      if ChildrenFit(c.children, |c.children|, start) { FitWithin(c.children, start); }
    }
  }

  lemma FitWithin(children: seq<Child>, start: Used)
    requires Within(start) && ChildrenFit(children, |children|, start)
    ensures Within(Used(start.entries + |children|, start.size + Bytes(CheckedAll(children))))
  {
    assert children[..|children|] == children;
  }

  /** The decoders tried in turn; the last one only for some providers. */
  datatype Decoders = Decoders(bundle: File -> Container, sub2api: File -> Container, xai: File -> Container,
                               tryXai: bool)

  /** The first decoder that does not decline, or one that declines. */
  function Decoder(f: File, d: Decoders, used: Used): Container {
    if !Outcome(f, d.bundle(f), used).0.Declined? then d.bundle(f)
    else if !Outcome(f, d.sub2api(f), used).0.Declined? || !d.tryXai then d.sub2api(f)
    else d.xai(f)
  }

  /** What one file becomes: itself, its accounts, or one failure. */
  function Replaced(f: File, d: Decoders, used: Used): (seq<File>, Used) {
    if f.error.Some? then ([f], used)
    else
      var (r, after) := Outcome(f, Decoder(f, d, used), used);
      (if r.Expanded? then r.items else [f], after)
  }

  /** The file is no container for this decoder. */
  predicate Declines(f: File, c: Container, used: Used) {
    Outcome(f, c, used).0.Declined?
  }

  /** The decoders are tried in order, the xAI one only if the provider allows it, and the first that does not decline
      decides; a failed file, and one that all decline, stays as it is. */
  lemma DecodersInOrder(f: File, d: Decoders, used: Used)
    ensures var (items, after) := Replaced(f, d, used);
            var bundle, sub2api, xai := Declines(f, d.bundle(f), used), Declines(f, d.sub2api(f), used),
                                        Declines(f, d.xai(f), used);
      && (f.error.Some? || (bundle && sub2api && (!d.tryXai || xai)) ==> items == [f] && after == used)
      && (f.error.None? && !bundle ==> (Expanded(items), after) == Outcome(f, d.bundle(f), used))
      && (f.error.None? && bundle && !sub2api ==> (Expanded(items), after) == Outcome(f, d.sub2api(f), used))
      && (f.error.None? && bundle && sub2api && d.tryXai && !xai ==>
            (Expanded(items), after) == Outcome(f, d.xai(f), used))
  {
    hide Outcome;
    DeclinedKeeps(f, d.bundle(f), used);
    DeclinedKeeps(f, d.sub2api(f), used);
    DeclinedKeeps(f, d.xai(f), used);
  }

  predicate AllSane(f: File, d: Decoders) {
    |f.raw| < 0x1_0000_0000_0000_0000 && Sane(d.bundle(f)) && Sane(d.sub2api(f)) && Sane(d.xai(f))
  }

  lemma DeclinedKeeps(file: File, c: Container, used: Used)
    ensures Outcome(file, c, used).0.Declined? ==> Outcome(file, c, used).1 == used
  {
    hide ChildWalk;
  }

  method ExpandOne(f: File, d: Decoders, b: Budget) returns (items: seq<File>)
    requires Covers(b.Value(), f) && AllSane(f, d)
    modifies b
    ensures (items, b.Value()) == Replaced(f, d, old(b.Value())) && Within(b.Value())
  {
    hide Outcome, Sane;
    ghost var used := b.Value();
    DeclinedKeeps(f, d.bundle(f), used);
    DeclinedKeeps(f, d.sub2api(f), used);
    items := [f];
    if f.error.Some? {
      return;
    }
    var r := ExpandContainer(f, d.bundle(f), b);
    if r.Declined? {
      r := ExpandContainer(f, d.sub2api(f), b);
    }
    if r.Declined? && d.tryXai {
      r := ExpandContainer(f, d.xai(f), b);
    }
    if r.Expanded? {
      items := r.items;
    }
  }

  lemma Single(f: File)
    ensures Bytes([f]) == |f.raw|
  {
    assert [f] == [] + [f];
    BytesStep([], f);
  }

  /** A file turns its one entry into one per item, what stays reserved covers them, and they are the file
      itself, one failure in its name, or the accounts of the container it is. */
  lemma ReplacedExactly(f: File, d: Decoders, used: Used)
    requires Covers(used, f)
    ensures var (items, after) := Replaced(f, d, used);
            var c := Decoder(f, d, used);
      && Within(after) && after.entries == used.entries - 1 + |items|
      && after.size >= used.size - |f.raw| + Bytes(items)
      && (f.error.Some? || Outcome(f, c, used).0.Declined? ==> items == [f])
      && (f.error.None? && ContainerFits(f, c, used) ==> items == CheckedAll(c.children))
      && (f.error.None? && !Outcome(f, c, used).0.Declined? && !ContainerFits(f, c, used) ==>
            exists error :: items == [Failure(f.fileName, error)])
  {
    hide Outcome, CheckedAll, Bytes, ContainerFits, ForeignFirst, Decoder;
    var c := Decoder(f, d, used);
    OutcomeExactly(f, c, used);
    Single(f);
    var r := Outcome(f, c, used).0;
    if r.Expanded? && |r.items| == 1 { Single(r.items[0]); }
    if r.Expanded? && !ContainerFits(f, c, used) {
      var error :| r == Failed(f, error);
      Single(Failure(f.fileName, error));
    }
  }

  /** Reserves every file before anything is expanded. */
  method ReserveAll(files: seq<File>, b: Budget) returns (ok: bool)
    requires forall f :: f in files ==> |f.raw| < 0x1_0000_0000_0000_0000
    requires b.Value() == NOTHING
    modifies b
    ensures Within(b.Value())
    ensures ok <==> |files| <= MAX_ENTRIES && Bytes(files) <= MAX_EXPANDED as int
    ensures ok ==> b.Value() == Used(|files|, Bytes(files))
  {
    hide Bytes;
    NoChildren(NOTHING);
    for i := 0 to |files|
      invariant Within(b.Value())
      invariant b.Value() == Used(i, Bytes(files[..i]))
    {
      assert files[..i + 1] == files[..i] + [files[i]];
      BytesStep(files[..i], files[i]);
      var fits := b.Reserve(Size(files[i].raw));
      if !fits {
        assert files == files[..i + 1] + files[i + 1..];
        BytesConcat(files[..i + 1], files[i + 1..]);
        return false;
      }
    }
    assert files[..|files|] == files;
    ok := true;
  }

  /** The files one after the other, each in the budget the ones before it left. */
  function AllReplaced(files: seq<File>, d: Decoders, start: Used): (seq<File>, Used) {
    if files == [] then ([], start)
    else
      var (items, used) := AllReplaced(files[..|files| - 1], d, start);
      var (more, after) := Replaced(files[|files| - 1], d, used);
      (items + more, after)
  }

  predicate FilesFit(files: seq<File>) {
    |files| <= MAX_ENTRIES && Bytes(files) <= MAX_EXPANDED as int
  }

  /** At the boundary before file `n` the entries are the files still to come plus the items produced, and
      the reserved bytes cover both; at the last one the items keep to the limits. */
  lemma {:induction false} Boundary(files: seq<File>, n: nat, d: Decoders)
    requires n <= |files| && FilesFit(files)
    ensures var (items, used) := AllReplaced(files[..n], d, Used(|files|, Bytes(files)));
      && Within(used) && used.entries == |files| - n + |items|
      && Bytes(files[n..]) + Bytes(items) <= used.size
      && (n < |files| ==> Covers(used, files[n]))
      && (forall f :: f in files[..n] && f.error.Some? ==> f in items)
  {
    hide Bytes, Replaced;
    var start := Used(|files|, Bytes(files));
    if n == 0 {
      assert files[..0] == [] && files[0..] == files;
      NoChildren(start);
    } else {
      Boundary(files, n - 1, d);
      var (items, used) := AllReplaced(files[..n - 1], d, start);
      var f := files[n - 1];
      assert files[..n][..n - 1] == files[..n - 1];
      ReplacedExactly(f, d, used);
      BytesConcat(items, Replaced(f, d, used).0);
      assert files[n - 1..] == [f] + files[n..];
      BytesConcat([f], files[n..]);
      Single(f);
      assert files[..n] == files[..n - 1] + [f];
    }
    if n < |files| {
      assert files[n..] == [files[n]] + files[n + 1..];
      BytesConcat([files[n]], files[n + 1..]);
      Single(files[n]);
    }
  }

  method ExpandContainers(files: seq<File>, d: Decoders) returns (expanded: Option<seq<File>>)
    requires forall f :: f in files ==> AllSane(f, d)
    ensures expanded == if FilesFit(files) then Some(AllReplaced(files, d, Used(|files|, Bytes(files))).0) else None
  {
    hide Bytes, Sane, Replaced;
    var b := new Budget();
    var ok := ReserveAll(files, b);
    if !ok {
      return None;
    }
    var items: seq<File> := [];
    ghost var start := b.Value();
    for i := 0 to |files|
      invariant fresh(b) && Within(b.Value())
      invariant (items, b.Value()) == AllReplaced(files[..i], d, start)
    {
      assert files[..i + 1][..i] == files[..i];
      Boundary(files, i, d);
      assert files[i] in files;
      var more := ExpandOne(files[i], d, b);
      items := items + more;
    }
    assert files[..|files|] == files;
    expanded := Some(items);
  }

  /** What comes out of an upload whose files fit keeps to both limits and has every failed file. */
  lemma ExpandedFits(files: seq<File>, d: Decoders)
    requires FilesFit(files)
    ensures var items := AllReplaced(files, d, Used(|files|, Bytes(files))).0;
      FilesFit(items) && forall f :: f in files && f.error.Some? ==> f in items
  {
    hide Bytes, AllReplaced;
    assert files[..|files|] == files && files[|files|..] == [];
    Boundary(files, |files|, d);
  }
}
