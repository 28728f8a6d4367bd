/** Importing credentials one file at a time: what a commit does, and what a whole sequential import
    leaves behind. */
module ImportBatch {
  import opened Names

  datatype Status = Created | Skipped | Failed

  datatype FileResult = FileResult(fileName: string, channelName: string, status: Status, error: string)

  /** A file after preparation: settled without touching the store, or ready to become a channel. */
  datatype Prepared =
    | Settled(index: nat, result: FileResult)
    | Ready(index: nat, fileName: string, provider: string, channelName: string)
  {
    function FileName(): string {
      if Settled? then result.fileName else fileName
    }
  }

  /** What the store answers to creating the channel of a file. */
  datatype Creation = Stored(name: string) | Refused(error: string)

  datatype NewChannel = NewChannel(index: nat, provider: string, key: string, priority: int)

  /** The names and priorities commits work with, and the channels they created. */
  datatype Books = Books(names: map<string, string>, priorities: map<string, int>, created: seq<NewChannel>)

  datatype Summary = Summary(created: nat, skipped: nat, failed: nat, results: seq<FileResult>)

  datatype Event =
    | Processing(processed: nat, total: nat, created: nat, skipped: nat, failed: nat, fileName: string)
    | Progress(processed: nat, total: nat, created: nat, skipped: nat, failed: nat, result: FileResult)

  function NameKey(name: string): string {
    Lower(TrimSpace(name))
  }

  function PriorityOf(priorities: map<string, int>, provider: string): int {
    if provider in priorities then priorities[provider] else 0
  }

  // ---- one file ------------------------------------------------------------------------------

  function CommitResult(b: Books, p: Prepared, answer: Creation): FileResult {
    if p.Settled? then p.result
    else if NameKey(p.channelName) in b.names then FileResult(p.fileName, b.names[NameKey(p.channelName)], Skipped, "")
    else match answer
      case Stored(name) => FileResult(p.fileName, name, Created, "")
      case Refused(error) => FileResult(p.fileName, "", Failed, error)
  }

  function Commit(b: Books, p: Prepared, answer: Creation, increment: int): Books {
    if p.Settled? || NameKey(p.channelName) in b.names || answer.Refused? then b
    else
      var priority := PriorityOf(b.priorities, p.provider);
      Books(b.names[NameKey(p.channelName) := answer.name], b.priorities[p.provider := priority + increment],
            b.created + [NewChannel(p.index, p.provider, NameKey(p.channelName), priority)])
  }

  function Tallied(s: Summary, r: FileResult): Summary {
    Summary(s.created + if r.status == Created then 1 else 0,
            s.skipped + if r.status == Skipped then 1 else 0,
            s.failed + if r.status == Failed then 1 else 0,
            s.results + [r])
  }

  const EMPTY := Summary(0, 0, 0, [])

  function ProcessingEvent(s: Summary, total: nat, fileName: string): Event {
    Processing(|s.results|, total, s.created, s.skipped, s.failed, fileName)
  }

  function ProgressEvent(s: Summary, total: nat, result: FileResult): Event {
    Progress(|s.results|, total, s.created, s.skipped, s.failed, result)
  }

  // ---- the sequential import -----------------------------------------------------------------

  /** Files as prepared, by index. */
  predicate InOrder(files: seq<Prepared>) {
    forall i :: 0 <= i < |files| ==> files[i].index == i
  }

  /** The books after the first `n` files, the store answering file `i` with `answers(i)`. */
  function BooksAfter(start: Books, files: seq<Prepared>, answers: nat -> Creation, increment: int, n: nat): Books
    requires n <= |files|
  {
    if n == 0 then start
    else Commit(BooksAfter(start, files, answers, increment, n - 1), files[n - 1], answers(n - 1), increment)
  }

  function ResultAt(start: Books, files: seq<Prepared>, answers: nat -> Creation, increment: int, i: nat): FileResult
    requires i < |files|
  {
    CommitResult(BooksAfter(start, files, answers, increment, i), files[i], answers(i))
  }

  function SummaryAfter(start: Books, files: seq<Prepared>, answers: nat -> Creation, increment: int, n: nat): Summary
    requires n <= |files|
  {
    if n == 0 then EMPTY
    else Tallied(SummaryAfter(start, files, answers, increment, n - 1),
                 ResultAt(start, files, answers, increment, n - 1))
  }

  /** The two events of file `i`. */
  function EventsAt(start: Books, files: seq<Prepared>, answers: nat -> Creation, increment: int, i: nat): seq<Event>
    requires i < |files|
  {
    [ProcessingEvent(SummaryAfter(start, files, answers, increment, i), |files|, files[i].FileName()),
     ProgressEvent(SummaryAfter(start, files, answers, increment, i + 1), |files|,
                   ResultAt(start, files, answers, increment, i))]
  }

  function EventsAfter(start: Books, files: seq<Prepared>, answers: nat -> Creation, increment: int, n: nat): seq<Event>
    requires n <= |files|
  {
    if n == 0 then []
    else EventsAfter(start, files, answers, increment, n - 1) + EventsAt(start, files, answers, increment, n - 1)
  }

  lemma {:induction false} SummaryCounts(start: Books, files: seq<Prepared>, answers: nat -> Creation, increment: int,
                                         n: nat)
    requires n <= |files|
    ensures var s := SummaryAfter(start, files, answers, increment, n);
      && |s.results| == n
      && (forall i :: 0 <= i < n ==> s.results[i] == ResultAt(start, files, answers, increment, i))
      && s.created + s.skipped + s.failed == n
  {
    hide ResultAt;
    if n > 0 { SummaryCounts(start, files, answers, increment, n - 1); }
  }

  // ---- names and priorities ------------------------------------------------------------------

  function ProviderCount(created: seq<NewChannel>, provider: string): nat {
    if created == [] then 0
    else
      ProviderCount(created[..|created| - 1], provider) + if created[|created| - 1].provider == provider then 1 else 0
  }

  /** Created names are new and pairwise distinct, and with the initial ones they are all the names. */
  ghost predicate NamesKept(start: Books, b: Books) {
    && (forall k :: k in b.names <==> k in start.names || exists i :: 0 <= i < |b.created| && b.created[i].key == k)
    && (forall i :: 0 <= i < |b.created| ==> b.created[i].key !in start.names)
    && (forall i, j :: 0 <= i < j < |b.created| ==> b.created[i].key != b.created[j].key)
  }

  /** The priority of the `count`-th channel of a provider, counted from 0. */
  function Rank(start: Books, increment: int, provider: string, count: nat): int {
    PriorityOf(start.priorities, provider) + count * increment
  }

  /** The k-th channel of every provider is k increments above its base, and so is the next one. */
  ghost predicate Ranked(start: Books, b: Books, increment: int) {
    && (forall p :: PriorityOf(b.priorities, p) == Rank(start, increment, p, ProviderCount(b.created, p)))
    && (forall i :: 0 <= i < |b.created| ==> RankedAt(start, b, increment, i))
  }

  ghost predicate RankedAt(start: Books, b: Books, increment: int, i: nat)
    requires i < |b.created|
  {
    b.created[i].priority == Rank(start, increment, b.created[i].provider,
                                  ProviderCount(b.created[..i], b.created[i].provider))
  }

  ghost predicate Kept(start: Books, b: Books, increment: int) {
    NamesKept(start, b) && Ranked(start, b, increment)
  }

  lemma CommitNames(start: Books, b: Books, p: Prepared, answer: Creation, increment: int)
    requires NamesKept(start, b)
    ensures NamesKept(start, Commit(b, p, answer, increment))
  {
    hide Lower, TrimSpace;
    var after := Commit(b, p, answer, increment);
    if after.created != b.created {
      var n := |b.created|;
      assert after.created[n].key == NameKey(p.channelName);
      forall k
        ensures k in after.names <==>
          k in start.names || exists i :: 0 <= i < |after.created| && after.created[i].key == k
      {
        if k in b.names && k !in start.names {
          var i :| 0 <= i < n && b.created[i].key == k;
          assert after.created[i].key == k;
        }
      }
    }
  }

  lemma OneMore(start: Books, increment: int, provider: string, count: nat)
    ensures Rank(start, increment, provider, count) + increment == Rank(start, increment, provider, count + 1)
  {
    assert count * increment + increment == (count + 1) * increment;
  }

  lemma CommitRanks(start: Books, b: Books, p: Prepared, answer: Creation, increment: int)
    requires Ranked(start, b, increment)
    ensures Ranked(start, Commit(b, p, answer, increment), increment)
  {
    hide NameKey, Rank;
    var after := Commit(b, p, answer, increment);
    if after.created != b.created {
      var n := |b.created|;
      assert after.created[..n] == b.created;
      forall i | 0 <= i < |after.created| ensures RankedAt(start, after, increment, i) {
        if i < n {
          assert RankedAt(start, b, increment, i);
          assert after.created[..i] == b.created[..i];
        }
      }
      forall q ensures PriorityOf(after.priorities, q) == Rank(start, increment, q, ProviderCount(after.created, q)) {
        assert PriorityOf(b.priorities, q) == Rank(start, increment, q, ProviderCount(b.created, q));
        OneMore(start, increment, q, ProviderCount(b.created, q));
      }
    }
  }

  /** In every sequential import, created names are pairwise distinct and absent from the initial ones,
      and the k-th channel created for a provider has the base priority plus k increments. */
  lemma {:induction false} ImportKeepsNamesAndPriorities(start: Books, files: seq<Prepared>, answers: nat -> Creation,
                                                         increment: int, n: nat)
    requires n <= |files| && start.created == []
    ensures Kept(start, BooksAfter(start, files, answers, increment, n), increment)
  {
    hide NamesKept, Ranked, Commit;
    if n == 0 {
      NothingCreated(start, increment);
    } else {
      ImportKeepsNamesAndPriorities(start, files, answers, increment, n - 1);
      var b := BooksAfter(start, files, answers, increment, n - 1);
      CommitNames(start, b, files[n - 1], answers(n - 1), increment);
      CommitRanks(start, b, files[n - 1], answers(n - 1), increment);
    }
  }

  lemma NothingCreated(start: Books, increment: int)
    requires start.created == []
    ensures Kept(start, start, increment)
  {
  }

  // ---- seeding -------------------------------------------------------------------------------

  /** What the import reads of an existing channel; `provider` is "" for channels without a credential. */
  datatype Channel = Channel(name: string, provider: string, priority: int)

  const PROVIDERS: seq<string> := ["codebuddy", "codex", "antigravity", "xai", "anthropic", "vertex"]

  /** The highest priority any channel of a provider has, at least 0. */
  function Highest(channels: seq<Channel>, provider: string): int {
    if channels == [] then 0
    else
      var before, c := Highest(channels[..|channels| - 1], provider), channels[|channels| - 1];
      if c.provider == provider && c.priority > before then c.priority else before
  }

  function Seeds(channels: seq<Channel>, increment: int): map<string, int> {
    map p | p in PROVIDERS :: if increment > 0 then Highest(channels, p) + increment else 0
  }

  function InitialNames(channels: seq<Channel>): map<string, string> {
    if channels == [] then map[]
    else
      var c := channels[|channels| - 1];
      InitialNames(channels[..|channels| - 1])[NameKey(TrimSpace(c.name)) := TrimSpace(c.name)]
  }

  method SeedPriorities(channels: seq<Channel>, increment: int) returns (next: map<string, int>)
    ensures next == Seeds(channels, increment)
  {
    hide PROVIDERS, Highest;
    next := map p | p in PROVIDERS :: 0;
    if increment > 0 {
      var highest := HighestPriorities(channels, next);
      next := map p | p in highest :: highest[p] + increment;
    }
  }

  method HighestPriorities(channels: seq<Channel>, zeroes: map<string, int>) returns (next: map<string, int>)
    requires forall p :: p in zeroes ==> zeroes[p] == 0
    ensures next.Keys == zeroes.Keys && forall p :: p in next ==> next[p] == Highest(channels, p)
  {
    next := zeroes;
    for i := 0 to |channels|
      invariant next.Keys == zeroes.Keys
      invariant forall p :: p in next ==> next[p] == Highest(channels[..i], p)
    {
      assert channels[..i + 1][..i] == channels[..i];
      var c := channels[i];
      if c.provider in next && c.priority > next[c.provider] {
        next := next[c.provider := c.priority];
      }
    }
    assert channels[..|channels|] == channels;
  }

  method CollectChannelNames(channels: seq<Channel>) returns (names: map<string, string>)
    ensures names == InitialNames(channels)
  {
    hide NameKey, TrimSpace;
    names := map[];
    for i := 0 to |channels|
      invariant names == InitialNames(channels[..i])
    {
      assert channels[..i + 1][..i] == channels[..i];
      var name := TrimSpace(channels[i].name);
      names := names[NameKey(name) := name];
    }
    assert channels[..|channels|] == channels;
  }

  lemma {:induction false} HighestBounds(channels: seq<Channel>, provider: string)
    ensures Highest(channels, provider) >= 0
    ensures forall c :: c in channels && c.provider == provider ==> c.priority <= Highest(channels, provider)
  {
    if channels != [] {
      assert channels == channels[..|channels| - 1] + [channels[|channels| - 1]];
      HighestBounds(channels[..|channels| - 1], provider);
    }
  }

  lemma {:induction false} InitialNamesAre(channels: seq<Channel>)
    ensures forall c :: c in channels ==> NameKey(TrimSpace(c.name)) in InitialNames(channels)
  {
    hide NameKey, TrimSpace;
    if channels != [] {
      assert channels == channels[..|channels| - 1] + [channels[|channels| - 1]];
      InitialNamesAre(channels[..|channels| - 1]);
    }
  }

  /** With an increment, every imported channel ranks above all earlier channels of its provider, and its
      name differs from every existing one. */
  lemma ImportedRankAbove(channels: seq<Channel>, files: seq<Prepared>, answers: nat -> Creation, increment: int,
                          i: nat, c: Channel)
    requires increment > 0 && c in channels
    requires var b := BooksAfter(Books(InitialNames(channels), Seeds(channels, increment), []), files, answers,
                                 increment, |files|);
             i < |b.created|
    ensures var n := BooksAfter(Books(InitialNames(channels), Seeds(channels, increment), []), files, answers,
                                increment, |files|).created[i];
      && n.key != NameKey(TrimSpace(c.name))
      && (n.provider == c.provider && n.provider in PROVIDERS ==> n.priority > c.priority)
  {
    hide NameKey, TrimSpace, BooksAfter, PROVIDERS;
    var start := Books(InitialNames(channels), Seeds(channels, increment), []);
    var b := BooksAfter(start, files, answers, increment, |files|);
    ImportKeepsNamesAndPriorities(start, files, answers, increment, |files|);
    InitialNamesAre(channels);
    HighestBounds(channels, c.provider);
    assert RankedAt(start, b, increment, i);
    var k := ProviderCount(b.created[..i], b.created[i].provider);
    assert k * increment >= 0;
  }
}
