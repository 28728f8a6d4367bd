/** Parallel preparation, sequential commits: files prepared in any order are committed in file order,
    and the outcome is that of the sequential import. */
module ImportRun {
  import opened Names
  import opened Seqs
  import opened ImportBatch

  /** Names and priorities of a running import. */
  class Ledger {
    var names: map<string, string>
    var priorities: map<string, int>
    ghost var created: seq<NewChannel>

    ghost function Value(): Books
      reads this
    {
      Books(names, priorities, created)
    }

    constructor (names: map<string, string>, priorities: map<string, int>)
      ensures Value() == Books(names, priorities, [])
    {
      this.names, this.priorities, this.created := names, priorities, [];
    }

    method CommitPrepared(p: Prepared, answer: Creation, increment: int) returns (result: FileResult)
      modifies this
      ensures result == CommitResult(old(Value()), p, answer)
      ensures Value() == Commit(old(Value()), p, answer, increment)
      ensures p.Settled? ==> result == p.result && Value() == old(Value())
      ensures p.Ready? && NameKey(p.channelName) in old(names) ==>
        result == FileResult(p.fileName, old(names)[NameKey(p.channelName)], Skipped, "") && Value() == old(Value())
      ensures p.Ready? && NameKey(p.channelName) !in old(names) ==>
        match answer
        case Refused(error) => result == FileResult(p.fileName, "", Failed, error) && Value() == old(Value())
        case Stored(name) =>
          && result == FileResult(p.fileName, name, Created, "") && names == old(names)[NameKey(p.channelName) := name]
          && |created| == |old(created)| + 1 && created[..|old(created)|] == old(created)
    {
      hide Lower, TrimSpace;
      if p.Settled? {
        return p.result;
      }
      var key := NameKey(p.channelName);
      if key in names {
        return FileResult(p.fileName, names[key], Skipped, "");
      }
      var priority := PriorityOf(priorities, p.provider);
      if answer.Refused? {
        return FileResult(p.fileName, "", Failed, answer.error);
      }
      names := names[key := answer.name];
      created := created + [NewChannel(p.index, p.provider, key, priority)];
      priorities := priorities[p.provider := priority + increment];
      result := FileResult(p.fileName, answer.name, Created, "");
    }
  }

  ghost predicate Arrived(arrivals: seq<nat>, k: nat, i: nat)
    requires k <= |arrivals|
  {
    exists j :: 0 <= j < k && arrivals[j] == i
  }

  /** Each file's preparation arrives at most once. */
  predicate Deliveries(arrivals: seq<nat>, total: nat) {
    && (forall k :: 0 <= k < |arrivals| ==> arrivals[k] < total)
    && forall j, k :: 0 <= j < k < |arrivals| ==> arrivals[j] != arrivals[k]
  }

  ghost predicate Buffered(pending: map<nat, Prepared>, files: seq<Prepared>, arrivals: seq<nat>, k: nat, next: nat)
    requires k <= |arrivals|
  {
    && (forall i :: i in pending ==> i < |files| && pending[i] == files[i])
    && (forall i :: i in pending <==> next <= i && Arrived(arrivals, k, i))
    && (forall i :: 0 <= i < next ==> Arrived(arrivals, k, i))
  }

  lemma Receive(pending: map<nat, Prepared>, files: seq<Prepared>, arrivals: seq<nat>, k: nat, next: nat)
    requires Deliveries(arrivals, |files|) && k < |arrivals| && Buffered(pending, files, arrivals, k, next)
    ensures Buffered(pending[arrivals[k] := files[arrivals[k]]], files, arrivals, k + 1, next)
  {
    var now, later := arrivals[k], k + 1;
    assert !Arrived(arrivals, k, now);
    assert now >= next;
    assert arrivals[k] == now;
    forall i: nat ensures Arrived(arrivals, later, i) <==> Arrived(arrivals, k, i) || i == now {
      if Arrived(arrivals, k, i) {
        var j :| 0 <= j < k && arrivals[j] == i;
        assert arrivals[j] == i;
      }
    }
    hide Arrived;
  }

  /** The log so far: the events of the committed files, perhaps with the next file just announced. */
  ghost predicate Told(events: seq<Event>, start: Books, files: seq<Prepared>, answers: nat -> Creation,
                       increment: int, n: nat) {
    && n <= |files|
    && (events == EventsAfter(start, files, answers, increment, n) ||
        (n < |files| && events == EventsAfter(start, files, answers, increment, n) +
                                  [ProcessingEvent(SummaryAfter(start, files, answers, increment, n), |files|,
                                                   files[n].FileName())]))
  }

  /** Nothing is cancelled, and the observer accepts every event. */
  ghost predicate Undisturbed(arrivals: seq<nat>, cancelled: nat -> bool, accepts: seq<Event> -> bool) {
    (forall k :: 0 <= k < |arrivals| ==> !cancelled(k)) && (forall log :: accepts(log))
  }

  /** Whatever the arrival order, the cancellation point and the observer, the first `done` files were
      committed in order with the results, events and books of a sequential import of them. */
  method RunImport(ledger: Ledger, files: seq<Prepared>, arrivals: seq<nat>, cancelled: nat -> bool,
                   accepts: seq<Event> -> bool, answers: nat -> Creation, increment: int)
    returns (summary: Summary, events: seq<Event>, completed: bool, ghost done: nat)
    requires InOrder(files) && Deliveries(arrivals, |files|)
    modifies ledger
    ensures done <= |files|
    ensures summary == SummaryAfter(old(ledger.Value()), files, answers, increment, done)
    ensures ledger.Value() == BooksAfter(old(ledger.Value()), files, answers, increment, done)
    ensures Told(events, old(ledger.Value()), files, answers, increment, done)
    ensures completed ==> done == |files| && events == EventsAfter(old(ledger.Value()), files, answers, increment, done)
    ensures Undisturbed(arrivals, cancelled, accepts) && |arrivals| == |files| ==> completed
  {
    hide BooksAfter, SummaryAfter, EventsAfter, Buffered, Tallied, CommitResult, Commit, InOrder, Prepared.FileName,
         ProcessingEvent, ProgressEvent;
    ghost var start := ledger.Value();
    var next: nat, pending: map<nat, Prepared>, stopped := 0, map[], false;
    summary, events := EMPTY, [];
    NothingYet(start, files, answers, increment, arrivals);
    for k := 0 to |arrivals|
      invariant next <= |files|
      invariant summary == SummaryAfter(start, files, answers, increment, next)
      invariant ledger.Value() == BooksAfter(start, files, answers, increment, next)
      invariant Told(events, start, files, answers, increment, next)
      invariant !stopped ==> events == EventsAfter(start, files, answers, increment, next)
      invariant !stopped ==> Buffered(pending, files, arrivals, k, next) && next !in pending
      invariant stopped ==> !Undisturbed(arrivals, cancelled, accepts)
    {
      if stopped {
        continue;
      }
      if cancelled(k) {
        stopped := true;
        continue;
      }
      Receive(pending, files, arrivals, k, next);
      pending := pending[arrivals[k] := files[arrivals[k]]];
      while next in pending
        invariant next <= |files|
        invariant summary == SummaryAfter(start, files, answers, increment, next)
        invariant ledger.Value() == BooksAfter(start, files, answers, increment, next)
        invariant events == EventsAfter(start, files, answers, increment, next)
        invariant Buffered(pending, files, arrivals, k + 1, next)
        invariant !stopped
        decreases |files| - next
      {
        TakeNext(pending, files, arrivals, k + 1, next);
        var current := pending[next];
        pending := pending - {next};
        events := events + [ProcessingEvent(summary, |files|, current.FileName())];
        if !accepts(events) {
          stopped := true;
          break;
        }
        var result := ledger.CommitPrepared(current, answers(next), increment);
        CommitNext(start, files, answers, increment, next);
        summary := Tallied(summary, result);
        next := next + 1;
        events := events + [ProgressEvent(summary, |files|, result)];
        if !accepts(events) {
          stopped := true;
          break;
        }
      }
    }
    completed, done := !stopped && next == |files|, next;
    if !stopped && |arrivals| == |files| { EveryoneArrived(pending, files, arrivals, next); }
  }

  /** The whole run: nothing to do, a channel list that cannot be read, or an import that starts from the
      names the listed channels have. */
  method RunOAuthImport(channels: Option<seq<Channel>>, listCancelled: bool, listError: string,
                        priorities: map<string, int>, files: seq<Prepared>, arrivals: seq<nat>,
                        cancelled: nat -> bool, accepts: seq<Event> -> bool, answers: nat -> Creation, increment: int)
    returns (summary: Summary, events: seq<Event>, completed: bool, ghost done: nat)
    requires InOrder(files) && Deliveries(arrivals, |files|)
    ensures done <= |files|
    ensures channels.Some? ==>
      var start := Books(InitialNames(channels.value), priorities, []);
      && summary == SummaryAfter(start, files, answers, increment, done)
      && Told(events, start, files, answers, increment, done)
      && (completed ==> done == |files| && events == EventsAfter(start, files, answers, increment, done))
      && (Undisturbed(arrivals, cancelled, accepts) && |arrivals| == |files| ==> completed)
    ensures channels.None? ==> (forall r :: r in summary.results ==> r.status == Failed && r.error == listError) &&
                               summary.created == summary.skipped == 0 && |summary.results| == summary.failed == done
    ensures channels.None? && files != [] ==>
        (listCancelled ==> !completed && events == []) && (completed ==> done == |files|)
    ensures files == [] ==> completed && summary == EMPTY && events == []
  {
    hide BooksAfter, SummaryAfter, EventsAfter, Tallied, CommitResult, Commit;
    if files == [] {
      if channels.Some? {
        NothingYet(Books(InitialNames(channels.value), priorities, []), files, answers, increment, arrivals);
      }
      return EMPTY, [], true, 0;
    }
    if channels.None? {
      if listCancelled {
        return EMPTY, [], false, 0;
      }
      var names := seq(|files|, i requires 0 <= i < |files| => files[i].FileName());
      summary, events, completed, done := FailBatch(Books(map[], map[], []), names, listError, accepts, answers,
                                                    increment);
      return summary, events, completed, |summary.results|;
    }
    var names := CollectChannelNames(channels.value);
    var ledger := new Ledger(names, priorities);
    summary, events, completed, done := RunImport(ledger, files, arrivals, cancelled, accepts, answers, increment);
  }

  lemma NothingYet(start: Books, files: seq<Prepared>, answers: nat -> Creation, increment: int, arrivals: seq<nat>)
    ensures SummaryAfter(start, files, answers, increment, 0) == EMPTY
    ensures BooksAfter(start, files, answers, increment, 0) == start
    ensures EventsAfter(start, files, answers, increment, 0) == []
    ensures Buffered(map[], files, arrivals, 0, 0)
  {
  }

  lemma TakeNext(pending: map<nat, Prepared>, files: seq<Prepared>, arrivals: seq<nat>, k: nat, next: nat)
    requires k <= |arrivals| && Buffered(pending, files, arrivals, k, next) && next in pending
    ensures next < |files| && pending[next] == files[next]
    ensures Buffered(pending - {next}, files, arrivals, k, next + 1)
  {
    hide Arrived;
  }

  lemma CommitNext(start: Books, files: seq<Prepared>, answers: nat -> Creation, increment: int, n: nat)
    requires n < |files|
    ensures BooksAfter(start, files, answers, increment, n + 1) ==
            Commit(BooksAfter(start, files, answers, increment, n), files[n], answers(n), increment)
    ensures SummaryAfter(start, files, answers, increment, n + 1) ==
            Tallied(SummaryAfter(start, files, answers, increment, n), ResultAt(start, files, answers, increment, n))
    ensures EventsAfter(start, files, answers, increment, n + 1) ==
            EventsAfter(start, files, answers, increment, n) +
            [ProcessingEvent(SummaryAfter(start, files, answers, increment, n), |files|, files[n].FileName())] +
            [ProgressEvent(SummaryAfter(start, files, answers, increment, n + 1), |files|,
                           ResultAt(start, files, answers, increment, n))]
  {
    hide Commit, CommitResult, Tallied;
  }

  /** When every preparation was delivered nothing can be waiting for a missing file. */
  lemma EveryoneArrived(pending: map<nat, Prepared>, files: seq<Prepared>, arrivals: seq<nat>, next: nat)
    requires Deliveries(arrivals, |files|) && |arrivals| == |files|
    requires Buffered(pending, files, arrivals, |arrivals|, next) && next <= |files| && next !in pending
    ensures next == |files|
  {
    if next < |files| {
      assert !Arrived(arrivals, |arrivals|, next);
      assert forall j :: 0 <= j < |arrivals| ==> arrivals[j] != next;
      AtMostAll(arrivals + [next], |files|);
    }
  }

  /** There are at most `total` distinct indexes below `total`. */
  lemma {:induction false} AtMostAll(arrivals: seq<nat>, total: nat)
    requires Deliveries(arrivals, total)
    ensures |arrivals| <= total
    decreases total
  {
    assert arrivals != [] ==> arrivals[0] < total;
    if total == 0 {
    } else if exists j :: 0 <= j < |arrivals| && arrivals[j] == total - 1 {
      var j :| 0 <= j < |arrivals| && arrivals[j] == total - 1;
      AtMostAll(arrivals[..j] + arrivals[j + 1..], total - 1);
    } else {
      AtMostAll(arrivals, total - 1);
    }
  }

  // ---- failing the whole batch ---------------------------------------------------------------

  function AllFailed(names: seq<string>, error: string): seq<Prepared> {
    seq(|names|, i requires 0 <= i < |names| => Settled(i, FileResult(names[i], "", Failed, error)))
  }

  /** A batch that cannot start reports every file as failed, as an import of settled files would. */
  method FailBatch(start: Books, names: seq<string>, error: string, accepts: seq<Event> -> bool,
                   ghost answers: nat -> Creation, ghost increment: int)
    returns (summary: Summary, events: seq<Event>, completed: bool, ghost done: nat)
    ensures |summary.results| == summary.failed <= |names| && summary.created == 0 == summary.skipped
    ensures forall i :: 0 <= i < |summary.results| ==> summary.results[i] == FileResult(names[i], "", Failed, error)
    ensures completed ==> |summary.results| == |names| && |events| == 2 * |names|
    ensures done <= |names|
    ensures summary == SummaryAfter(start, AllFailed(names, error), answers, increment, done)
    ensures BooksAfter(start, AllFailed(names, error), answers, increment, done) == start
    ensures Told(events, start, AllFailed(names, error), answers, increment, done)
    ensures completed ==>
        done == |names| && events == EventsAfter(start, AllFailed(names, error), answers, increment, done)
  {
    hide BooksAfter, SummaryAfter, EventsAfter;
    ghost var files := AllFailed(names, error);
    summary, events, done := EMPTY, [], 0;
    NothingYet(start, files, answers, increment, []);
    for i := 0 to |names|
      invariant done == i
      invariant summary == Summary(0, 0, i, summary.results) && |summary.results| == i && |events| == 2 * i
      invariant forall k :: 0 <= k < i ==> summary.results[k] == FileResult(names[k], "", Failed, error)
      invariant summary == SummaryAfter(start, files, answers, increment, i)
      invariant BooksAfter(start, files, answers, increment, i) == start
      invariant events == EventsAfter(start, files, answers, increment, i)
    {
      CommitNext(start, files, answers, increment, i);
      events := events + [ProcessingEvent(summary, |names|, names[i])];
      if !accepts(events) {
        return summary, events, false, i;
      }
      var result := FileResult(names[i], "", Failed, error);
      summary := Tallied(summary, result);
      done := i + 1;
      events := events + [ProgressEvent(summary, |names|, result)];
      if !accepts(events) {
        return summary, events, false, i + 1;
      }
    }
    completed := true;
  }

  // ---- the job a poller reads ----------------------------------------------------------------

  datatype JobStatus = Running | Succeeded | Cancelled

  /** The part of a job its events and its end write. */
  datatype Job = Job(status: JobStatus, created: nat, skipped: nat, failed: nat, fileName: string,
                     results: seq<FileResult>, error: string)

  function Observed(j: Job, e: Event): Job {
    match e
    case Processing(_, _, _, _, _, fileName) => j.(fileName := fileName)
    case Progress(_, _, created, skipped, failed, result) =>
      j.(fileName := result.fileName, results := j.results + [result], created := created, skipped := skipped,
         failed := failed)
  }

  function ObservedAll(j: Job, events: seq<Event>): Job {
    if events == [] then j else Observed(ObservedAll(j, events[..|events| - 1]), events[|events| - 1])
  }

  function Finished(j: Job, s: Summary, completed: bool, error: string): Job {
    j.(created := s.created, skipped := s.skipped, failed := s.failed, fileName := "", error := error,
       status := if completed then Succeeded else Cancelled)
  }

  const NEW_JOB := Job(Running, 0, 0, 0, "", [], "")

  class ImportJob {
    var status: JobStatus
    var created: nat
    var skipped: nat
    var failed: nat
    var fileName: string
    var results: seq<FileResult>
    var error: string

    ghost function Value(): Job
      reads this
    {
      Job(status, created, skipped, failed, fileName, results, error)
    }

    constructor ()
      ensures Value() == NEW_JOB
    {
      status, created, skipped, failed, fileName, results, error := Running, 0, 0, 0, "", [], "";
    }

    method Observe(e: Event) returns (ok: bool)
      modifies this
      ensures ok && Value() == Observed(old(Value()), e)
      ensures fileName == (if e.Progress? then e.result.fileName else e.fileName) && status == old(status)
      ensures results == if e.Progress? then old(results) + [e.result] else old(results)
    {
      fileName := if e.Progress? then e.result.fileName else e.fileName;
      if e.Progress? {
        results := results + [e.result];
        created, skipped, failed := e.created, e.skipped, e.failed;
      }
      ok := true;
    }

    method Finish(s: Summary, completed: bool, err: string)
      modifies this
      ensures Value() == Finished(old(Value()), s, completed, err)
    {
      created, skipped, failed, fileName, error := s.created, s.skipped, s.failed, "", err;
      status := if completed then Succeeded else Cancelled;
    }

    method View(after: int) returns (page: Option<seq<FileResult>>)
      ensures page == if 0 <= after <= |results| then Some(results[after..]) else None
    {
      if after < 0 || after > |results| {
        return None;
      }
      page := Some(results[after..]);
    }
  }

  /** A job that watched an import of the first `n` files shows exactly their summary. */
  lemma {:induction false} JobMirrorsSummary(start: Books, files: seq<Prepared>, answers: nat -> Creation,
                                             increment: int, n: nat)
    requires n <= |files|
    ensures var j, s := ObservedAll(NEW_JOB, EventsAfter(start, files, answers, increment, n)),
                        SummaryAfter(start, files, answers, increment, n);
      j.results == s.results && j.created == s.created && j.skipped == s.skipped && j.failed == s.failed &&
          j.status == Running
  {
    hide BooksAfter, CommitResult;
    if n > 0 {
      JobMirrorsSummary(start, files, answers, increment, n - 1);
      var before, pair := EventsAfter(start, files, answers, increment, n - 1),
          EventsAt(start, files, answers, increment, n - 1);
      var all := EventsAfter(start, files, answers, increment, n);
      assert all == before + pair;
      assert all[..|all| - 1] == before + [pair[0]];
      assert (before + [pair[0]])[..|before|] == before;
      assert all[|all| - 1] == pair[1];
    }
  }

  /** What a finished job shows that watched an import of the first `n` files, whatever was announced last:
      the summary's results and counters, no current file, and how the import ended. */
  lemma FinishedJobShows(start: Books, files: seq<Prepared>, answers: nat -> Creation, increment: int, n: nat,
                         events: seq<Event>, completed: bool, error: string)
    requires Told(events, start, files, answers, increment, n)
    ensures var s := SummaryAfter(start, files, answers, increment, n);
      Finished(ObservedAll(NEW_JOB, events), s, completed, error) ==
      Job(if completed then Succeeded else Cancelled, s.created, s.skipped, s.failed, "", s.results, error)
  {
    hide SummaryAfter, EventsAfter, ProcessingEvent, ProgressEvent;
    JobMirrorsSummary(start, files, answers, increment, n);
    var told := EventsAfter(start, files, answers, increment, n);
    if events != told {
      var announced := ProcessingEvent(SummaryAfter(start, files, answers, increment, n), |files|, files[n].FileName());
      assert (told + [announced])[..|told|] == told;
      AnnouncedOnly(ObservedAll(NEW_JOB, told), SummaryAfter(start, files, answers, increment, n), |files|,
                    files[n].FileName());
    }
  }

  lemma AnnouncedOnly(j: Job, s: Summary, total: nat, fileName: string)
    ensures Observed(j, ProcessingEvent(s, total, fileName)) == j.(fileName := fileName)
  {
  }

  // ---- the stream a client reads -------------------------------------------------------------

  /** The events a stream writes for the results it has fetched, after results that tallied to `s`. */
  function Streamed(s: Summary, total: nat, results: seq<FileResult>): seq<Event>
    decreases |results|
  {
    if results == [] then []
    else
      var n := |results| - 1;
      var before := TalliedAll(s, results[..n]);
      Streamed(s, total, results[..n]) +
      [ProcessingEvent(before, total, results[n].fileName),
       ProgressEvent(Tallied(before, results[n]), total, results[n])]
  }

  function TalliedAll(s: Summary, results: seq<FileResult>): Summary
    decreases |results|
  {
    if results == [] then s else Tallied(TalliedAll(s, results[..|results| - 1]), results[|results| - 1])
  }

  lemma StreamStarts(total: nat)
    ensures TalliedAll(EMPTY, []) == EMPTY && Streamed(EMPTY, total, []) == [] && EMPTY.results == []
  {
  }

  lemma TalliedResults(s: Summary, r: FileResult)
    ensures Tallied(s, r).results == s.results + [r]
  {
  }

  lemma StreamStep(s: Summary, total: nat, results: seq<FileResult>, r: FileResult)
    ensures TalliedAll(s, results + [r]) == Tallied(TalliedAll(s, results), r)
    ensures Streamed(s, total, results + [r]) ==
            Streamed(s, total, results) +
            [ProcessingEvent(TalliedAll(s, results), total, r.fileName),
             ProgressEvent(Tallied(TalliedAll(s, results), r), total, r)]
  {
    hide ProcessingEvent, ProgressEvent, Tallied;
    assert (results + [r])[..|results|] == results;
  }

  /** A stream rebuilds, from the results alone, exactly the events the import reported. */
  lemma {:induction false} StreamRebuildsEvents(start: Books, files: seq<Prepared>, answers: nat -> Creation,
                                                increment: int, n: nat)
    requires n <= |files|
    ensures TalliedAll(EMPTY, SummaryAfter(start, files, answers, increment, n).results) ==
        SummaryAfter(start, files, answers, increment, n)
    ensures Streamed(EMPTY, |files|, SummaryAfter(start, files, answers, increment, n).results) ==
            EventsAfter(start, files, answers, increment, n)
  {
    hide SummaryAfter, EventsAfter, ResultAt, ProcessingEvent, ProgressEvent, Streamed, TalliedAll;
    if n == 0 {
      NothingYet(start, files, answers, increment, []);
      StreamStarts(|files|);
    } else {
      StreamRebuildsEvents(start, files, answers, increment, n - 1);
      CommitNext(start, files, answers, increment, n - 1);
      var before, result := SummaryAfter(start, files, answers, increment, n - 1),
          ResultAt(start, files, answers, increment, n - 1);
      SameFile(start, files, answers, increment, n - 1);
      StreamStep(EMPTY, |files|, before.results, result);
      TalliedResults(before, result);
      var told := EventsAfter(start, files, answers, increment, n - 1);
      assert told + [ProcessingEvent(before, |files|, result.fileName)] +
          [ProgressEvent(Tallied(before, result), |files|, result)] ==
             told + [ProcessingEvent(before, |files|, result.fileName),
                     ProgressEvent(Tallied(before, result), |files|, result)];
    }
  }

  /** A commit reports the file it was given. */
  lemma SameFile(start: Books, files: seq<Prepared>, answers: nat -> Creation, increment: int, i: nat)
    requires i < |files|
    ensures ResultAt(start, files, answers, increment, i).fileName == files[i].FileName()
  {
    hide BooksAfter, NameKey;
  }
}
