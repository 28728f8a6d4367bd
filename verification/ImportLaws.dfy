/** What an import reports: the status of every file, the counters, the events, and the seeds it starts from,
    each told by the channels that exist and by the answers of the store. */
module ImportLaws {
  import opened Names
  import opened Seqs
  import opened ImportBatch

  // ---- the channels an import created --------------------------------------------------------

  /** Some channel was created for file `i`. */
  ghost predicate CreatedFor(b: Books, i: nat) {
    exists c :: c in b.created && c.index == i
  }

  /** A channel with this name key was created for a file before `i`, and the store called it `name`. */
  ghost predicate CreatedBefore(b: Books, answers: nat -> Creation, i: nat, key: string, name: string) {
    exists c :: c in b.created && c.index < i && c.key == key && answers(c.index) == Stored(name)
  }

  /** Some channel was created for a file before `i` with this name key. */
  ghost predicate KeyCreated(b: Books, i: nat, key: string) {
    exists c :: c in b.created && c.index < i && c.key == key
  }

  /** The channel goes back to a prepared file of the first `n`, whose creation the store accepted. */
  predicate Backed(files: seq<Prepared>, answers: nat -> Creation, n: nat, c: NewChannel) {
    && c.index < n <= |files| && files[c.index].Ready? && answers(c.index).Stored?
    && c.provider == files[c.index].provider && c.key == NameKey(files[c.index].channelName)
  }

  /** The name the table holds for a key is that of an existing channel or of the created one. */
  ghost predicate NameTold(start: Books, b: Books, answers: nat -> Creation, n: nat, key: string) {
    key in b.names ==>
      if key in start.names then b.names[key] == start.names[key]
      else CreatedBefore(b, answers, n, key, b.names[key])
  }

  ghost predicate BooksTell(start: Books, files: seq<Prepared>, answers: nat -> Creation, n: nat, b: Books) {
    && (forall c :: c in b.created ==> Backed(files, answers, n, c))
    && (forall key :: key in b.names <==> key in start.names || KeyCreated(b, n, key))
    && (forall key :: NameTold(start, b, answers, n, key))
  }

  lemma {:induction false} BooksHold(start: Books, files: seq<Prepared>, answers: nat -> Creation, increment: int,
                                     n: nat)
    requires InOrder(files) && n <= |files| && start.created == []
    ensures BooksTell(start, files, answers, n, BooksAfter(start, files, answers, increment, n))
  {
    hide NameKey, Commit, BooksTell;
    if n == 0 {
      assert BooksTell(start, files, answers, 0, start) by { NothingNameTold(start, files, answers); }
    } else {
      BooksHold(start, files, answers, increment, n - 1);
      CommitTells(start, files, answers, increment, n - 1, BooksAfter(start, files, answers, increment, n - 1));
    }
  }

  lemma NothingNameTold(start: Books, files: seq<Prepared>, answers: nat -> Creation)
    requires start.created == []
    ensures BooksTell(start, files, answers, 0, start)
  {
  }

  lemma CommitTells(start: Books, files: seq<Prepared>, answers: nat -> Creation, increment: int, i: nat, b: Books)
    requires InOrder(files) && i < |files| && BooksTell(start, files, answers, i, b)
    ensures BooksTell(start, files, answers, i + 1, Commit(b, files[i], answers(i), increment))
  {
    hide NameKey;
    var after, later := Commit(b, files[i], answers(i), increment), i + 1;
    assert b.created <= after.created;
    forall c | c in b.created ensures c in after.created && c.index < i {
      assert Backed(files, answers, i, c);
    }
    if after.created != b.created {
      assert after.created[|b.created|] == after.created[|after.created| - 1];
      assert after.created[|b.created|] in after.created;
    }
    forall key ensures NameTold(start, after, answers, later, key) {
      assert NameTold(start, b, answers, i, key);
    }
    forall key ensures key in after.names <==> key in start.names || KeyCreated(after, later, key) {
      assert key in b.names <==> key in start.names || KeyCreated(b, i, key);
    }
  }

  /** Channels of later files change nothing about what stood before file `i`. */
  lemma {:induction false} EarlierStands(start: Books, files: seq<Prepared>, answers: nat -> Creation, increment: int,
                                         i: nat, n: nat)
    requires InOrder(files) && i <= n <= |files| && start.created == []
    ensures var before, b := BooksAfter(start, files, answers, increment, i),
                             BooksAfter(start, files, answers, increment, n);
      && before.created <= b.created
      && forall k :: |before.created| <= k < |b.created| ==> b.created[k].index >= i
    decreases n
  {
    hide NameKey;
    if i < n { EarlierStands(start, files, answers, increment, i, n - 1); }
  }

  // ---- the status of a file ------------------------------------------------------------------

  /** Every file's result in an import of the first `n`: created exactly when a channel exists for it, skipped
      exactly when its name was there before, and failed exactly when the store refused a new name. */
  lemma ResultsTell(start: Books, files: seq<Prepared>, answers: nat -> Creation, increment: int, n: nat, i: nat)
    requires InOrder(files) && i < n <= |files| && start.created == []
    ensures |SummaryAfter(start, files, answers, increment, n).results| == n
    ensures var b := BooksAfter(start, files, answers, increment, n);
            var p, r := files[i], SummaryAfter(start, files, answers, increment, n).results[i];
      && (p.Settled? ==> r == p.result && !CreatedFor(b, i))
      && (p.Ready? ==>
            var key := Lower(TrimSpace(p.channelName));
            var there := key in start.names || KeyCreated(b, i, key);
            && r.fileName == p.fileName
            && (r.status == Created <==> CreatedFor(b, i)) && (r.status == Created <==> !there && answers(i).Stored?)
            && (r.status == Skipped <==> there)
            && (r.status == Failed <==> !there && answers(i).Refused?)
            && (r.status == Created ==> answers(i) == Stored(r.channelName) && r.error == "")
            && (r.status == Skipped && key in start.names ==> r.channelName == start.names[key] && r.error == "")
            && (r.status == Skipped && key !in start.names ==>
                  CreatedBefore(b, answers, i, key, r.channelName) && r.error == "")
            && (r.status == Failed ==> answers(i) == Refused(r.error) && r.channelName == ""))
  {
    hide Lower, TrimSpace, BooksTell, SummaryAfter;
    SummaryCounts(start, files, answers, increment, n);
    var before, b := BooksAfter(start, files, answers, increment, i), BooksAfter(start, files, answers, increment, n);
    BooksHold(start, files, answers, increment, i);
    EarlierStands(start, files, answers, increment, i, n);
    SameBefore(start, files, answers, i, before, b);
    WasItCreated(start, files, answers, increment, n, i);
    if files[i].Ready? {
      NameTells(start, files, answers, i, before, NameKey(files[i].channelName));
    }
  }

  lemma NameTells(start: Books, files: seq<Prepared>, answers: nat -> Creation, i: nat, b: Books, key: string)
    requires BooksTell(start, files, answers, i, b)
    ensures key in b.names <==> key in start.names || KeyCreated(b, i, key)
    ensures NameTold(start, b, answers, i, key)
  {
  }

  /** The channels created before file `i` are those with a smaller index. */
  lemma SameBefore(start: Books, files: seq<Prepared>, answers: nat -> Creation, i: nat, before: Books, b: Books)
    requires before.created <= b.created && BooksTell(start, files, answers, i, before)
    requires forall k :: |before.created| <= k < |b.created| ==> b.created[k].index >= i
    ensures forall key :: KeyCreated(before, i, key) <==> KeyCreated(b, i, key)
    ensures forall key, name :: CreatedBefore(before, answers, i, key, name) <==>
        CreatedBefore(b, answers, i, key, name)
  {
    forall c | c in b.created && c.index < i ensures c in before.created {
      var k :| 0 <= k < |b.created| && b.created[k] == c;
      assert k < |before.created| && before.created[k] == c;
    }
    assert forall c :: c in before.created ==> c in b.created;
  }

  lemma WasItCreated(start: Books, files: seq<Prepared>, answers: nat -> Creation, increment: int, n: nat, i: nat)
    requires InOrder(files) && i < n <= |files| && start.created == []
    ensures var before := BooksAfter(start, files, answers, increment, i);
      CreatedFor(BooksAfter(start, files, answers, increment, n), i) <==>
      files[i].Ready? && NameKey(files[i].channelName) !in before.names && answers(i).Stored?
  {
    hide NameKey, BooksTell, BooksAfter, Commit;
    BooksHold(start, files, answers, increment, i);
    EarlierStands(start, files, answers, increment, i + 1, n);
    var before, b := BooksAfter(start, files, answers, increment, i), BooksAfter(start, files, answers, increment, n);
    var next := BooksAfter(start, files, answers, increment, i + 1);
    assert next == Commit(before, files[i], answers(i), increment) by {
      NextBooks(start, files, answers, increment, i);
    }
    OnlyEarlier(start, files, answers, i, before);
    CommitCreates(before, files[i], answers(i), increment);
    CreatedWithin(before.created, next.created, b.created, i);
  }

  /** A commit adds a channel, with the file's index, exactly for a prepared file with a new name that the store
      accepts. */
  lemma CommitCreates(b: Books, p: Prepared, answer: Creation, increment: int)
    ensures var after := Commit(b, p, answer, increment).created;
      if p.Ready? && NameKey(p.channelName) !in b.names && answer.Stored?
      then |after| == |b.created| + 1 && b.created <= after && after[|b.created|].index == p.index
      else after == b.created
  {
    hide NameKey;
  }

  lemma CreatedWithin(before: seq<NewChannel>, next: seq<NewChannel>, all: seq<NewChannel>, i: nat)
    requires before <= next <= all && |next| <= |before| + 1
    requires forall c :: c in before ==> c.index < i
    requires |next| > |before| ==> next[|before|].index == i
    requires forall k :: |next| <= k < |all| ==> all[k].index > i
    ensures (exists c :: c in all && c.index == i) <==> |next| > |before|
  {
    if |next| > |before| {
      assert all[|before|] == next[|before|];
    } else {
      forall c | c in all ensures c.index != i {
        var k :| 0 <= k < |all| && all[k] == c;
        assert k < |next| ==> before[k] == all[k] && before[k] in before;
      }
    }
  }

  lemma NextBooks(start: Books, files: seq<Prepared>, answers: nat -> Creation, increment: int, i: nat)
    requires i < |files|
    ensures BooksAfter(start, files, answers, increment, i + 1) ==
            Commit(BooksAfter(start, files, answers, increment, i), files[i], answers(i), increment)
  {
    hide Commit;
  }

  lemma OnlyEarlier(start: Books, files: seq<Prepared>, answers: nat -> Creation, i: nat, b: Books)
    requires BooksTell(start, files, answers, i, b)
    ensures forall c :: c in b.created ==> c.index < i && Backed(files, answers, i, c)
  {
  }

  // ---- the counters --------------------------------------------------------------------------

  function WithStatus(results: seq<FileResult>, status: Status): nat {
    Count((r: FileResult) => r.status == status, results)
  }

  /** Files that came settled and report themselves as created. */
  function SettledCreated(files: seq<Prepared>): nat {
    Count((p: Prepared) => p.Settled? && p.result.status == Created, files)
  }

  /** The three counters count exactly the results with their status, and "created" is the number of channels
      that were made, next to files that came settled as created. */
  lemma {:induction false} CountersTell(start: Books, files: seq<Prepared>, answers: nat -> Creation, increment: int,
                                        n: nat)
    requires n <= |files| && start.created == []
    ensures var b, s := BooksAfter(start, files, answers, increment, n),
                        SummaryAfter(start, files, answers, increment, n);
      && s.created == WithStatus(s.results, Created) && s.skipped == WithStatus(s.results, Skipped)
      && s.failed == WithStatus(s.results, Failed)
      && s.created == |b.created| + SettledCreated(files[..n])
  {
    hide WithStatus, SettledCreated, Tallied, Commit, CommitResult;
    if n == 0 {
      NothingCounted();
      assert files[..0] == [];
    } else {
      CountersTell(start, files, answers, increment, n - 1);
      assert files[..n] == files[..n - 1] + [files[n - 1]];
      var r := ResultAt(start, files, answers, increment, n - 1);
      TalliedCounts(SummaryAfter(start, files, answers, increment, n - 1), r);
      CreatedCounts(BooksAfter(start, files, answers, increment, n - 1), files[..n - 1], files[n - 1], answers(n - 1),
                    increment);
    }
  }

  lemma NothingCounted()
    ensures SettledCreated([]) == 0 && forall status :: WithStatus([], status) == 0
  {
  }

  lemma TalliedCounts(s: Summary, r: FileResult)
    ensures var t := Tallied(s, r);
      && t.created + WithStatus(s.results, Created) == s.created + WithStatus(t.results, Created)
      && t.skipped + WithStatus(s.results, Skipped) == s.skipped + WithStatus(t.results, Skipped)
      && t.failed + WithStatus(s.results, Failed) == s.failed + WithStatus(t.results, Failed)
      && t.created == s.created + if r.status == Created then 1 else 0
  {
    hide Count;
    CountStep((x: FileResult) => x.status == Created, s.results, r);
    CountStep((x: FileResult) => x.status == Skipped, s.results, r);
    CountStep((x: FileResult) => x.status == Failed, s.results, r);
  }

  /** A commit makes a channel exactly when it reports one, unless the file came settled as created. */
  lemma CreatedCounts(b: Books, files: seq<Prepared>, p: Prepared, answer: Creation, increment: int)
    ensures |Commit(b, p, answer, increment).created| + SettledCreated(files + [p]) ==
            |b.created| + SettledCreated(files) + if CommitResult(b, p, answer).status == Created then 1 else 0
  {
    hide Count, NameKey;
    CountStep((x: Prepared) => x.Settled? && x.result.status == Created, files, p);
  }

  lemma CountStep<A>(p: A -> bool, xs: seq<A>, x: A)
    ensures Count(p, xs + [x]) == Count(p, xs) + if p(x) then 1 else 0
  {
    assert (xs + [x])[..|xs|] == xs;
  }

  // ---- the events ----------------------------------------------------------------------------

  /** The log has two events for each file, which tell its place, the size of the batch, the counters before it
      and after it, its name and its result. */
  lemma {:induction false} EventsTell(start: Books, files: seq<Prepared>, answers: nat -> Creation, increment: int,
                                      n: nat, i: nat)
    requires i < n <= |files|
    ensures var log := EventsAfter(start, files, answers, increment, n);
            var s, t := SummaryAfter(start, files, answers, increment, i),
                        SummaryAfter(start, files, answers, increment, i + 1);
      && |log| == 2 * n && |t.results| == i + 1
      && log[2 * i] == Processing(i, |files|, s.created, s.skipped, s.failed, files[i].FileName())
      && log[2 * i + 1] == Progress(i + 1, |files|, t.created, t.skipped, t.failed, t.results[i])
    decreases n
  {
    hide SummaryAfter, ResultAt;
    SummaryCounts(start, files, answers, increment, i);
    SummaryCounts(start, files, answers, increment, i + 1);
    if i < n - 1 {
      EventsTell(start, files, answers, increment, n - 1, i);
    } else if n > 1 {
      EventsTell(start, files, answers, increment, n - 1, n - 2);
    }
  }

  // ---- the seeds -----------------------------------------------------------------------------

  /** No channel of the provider ranks higher than `top`, and one has it unless it is 0. */
  ghost predicate Top(channels: seq<Channel>, provider: string, top: int) {
    && top >= 0
    && (forall c :: c in channels && c.provider == provider ==> c.priority <= top)
    && (top > 0 ==> exists c :: c in channels && c.provider == provider && c.priority == top)
  }

  lemma {:induction false} HighestIsTop(channels: seq<Channel>, provider: string)
    ensures Top(channels, provider, Highest(channels, provider))
  {
    if channels != [] {
      var front := channels[..|channels| - 1];
      assert channels == front + [channels[|channels| - 1]];
      HighestIsTop(front, provider);
      if Highest(front, provider) > 0 {
        var c :| c in front && c.provider == provider && c.priority == Highest(front, provider);
        assert c in channels;
      }
    }
  }

  /** A provider starts one increment above its highest channel, or at 0 when ranks are not raised. */
  lemma SeedsTell(channels: seq<Channel>, increment: int)
    ensures forall p :: p in Seeds(channels, increment) <==> p in PROVIDERS
    ensures forall p :: p in PROVIDERS ==>
      if increment > 0 then Top(channels, p, Seeds(channels, increment)[p] - increment)
      else Seeds(channels, increment)[p] == 0
  {
    hide PROVIDERS, Highest, Top;
    forall p | p in PROVIDERS { HighestIsTop(channels, p); }
  }

  /** The names taken are those of the channels, trimmed; a shared name is the last channel's. */
  lemma {:induction false} InitialNamesTell(channels: seq<Channel>)
    ensures forall key :: key in InitialNames(channels) ==>
      exists i :: 0 <= i < |channels| && LastNamed(channels, i, key, InitialNames(channels)[key])
    ensures forall c :: c in channels ==> Lower(TrimSpace(c.name)) in InitialNames(channels)
  {
    hide Lower, TrimSpace;
    if channels != [] {
      var front, last := channels[..|channels| - 1], channels[|channels| - 1];
      assert channels == front + [last];
      InitialNamesTell(front);
      TrimmedOnce(last.name);
      forall key | key in InitialNames(channels)
        ensures exists i :: 0 <= i < |channels| && LastNamed(channels, i, key, InitialNames(channels)[key])
      {
        if key == NameKey(TrimSpace(last.name)) {
          assert LastNamed(channels, |channels| - 1, key, InitialNames(channels)[key]);
        } else {
          var i :| 0 <= i < |front| && LastNamed(front, i, key, InitialNames(front)[key]);
          assert LastNamed(channels, i, key, InitialNames(channels)[key]);
        }
      }
    }
  }

  predicate LastNamed(channels: seq<Channel>, i: nat, key: string, name: string) {
    && i < |channels| && name == TrimSpace(channels[i].name) && key == Lower(name)
    && forall k :: i < k < |channels| ==> Lower(TrimSpace(channels[k].name)) != key
  }

  lemma TrimmedOnce(name: string)
    ensures TrimSpace(TrimSpace(name)) == TrimSpace(name)
  {
    hide Trimmed;
  }
}
