/** A credential cleanup job: its counters, its append-only event log, and reading the log by cursor. */
module CleanupJob {
  import opened Seqs

  datatype Status = Running | Cancelled | Failed | Succeeded

  /** How one channel ended. */
  datatype Outcome = Healthy | Refreshed | Disabled | Deleted | Skipped | Faulty

  datatype Counts = Counts(healthy: nat, refreshed: nat, disabled: nat, deleted: nat, failed: nat, skipped: nat)
  {
    function Sum(): nat {
      healthy + refreshed + disabled + deleted + failed + skipped
    }

    function Add(outcome: Outcome): Counts {
      match outcome
      case Healthy => this.(healthy := healthy + 1)
      case Refreshed => this.(refreshed := refreshed + 1)
      case Disabled => this.(disabled := disabled + 1)
      case Deleted => this.(deleted := deleted + 1)
      case Skipped => this.(skipped := skipped + 1)
      case Faulty => this.(failed := failed + 1)
    }
  }

  datatype Kind =
    | Begin
    | Stage(channel: int, stage: string)
    | Progress(channel: int, outcome: Outcome)
    | Complete(status: Status, error: string)

  datatype Event = Event(kind: Kind, sequence: nat, processed: nat, total: nat, counts: Counts)

  /** How a run came back. */
  datatype RunError = NoError | ContextCancelled | Broken(message: string)

  datatype Job = Job(
    total: nat, status: Status, processed: nat, counts: Counts, events: seq<Event>, error: string,
    cancelRequested: bool)

  datatype JobView = JobView(status: Status, events: seq<Event>, next: nat, error: string)

  // ---- operations on the job's value ---------------------------------------------------------

  function Append(j: Job, kind: Kind): Job {
    j.(events := j.events + [Event(kind, |j.events| + 1, j.processed, j.total, j.counts)])
  }

  function NewJob(total: nat): Job {
    Append(Job(total, Running, 0, Counts(0, 0, 0, 0, 0, 0), [], "", false), Begin)
  }

  predicate Destructive(outcome: Outcome) {
    outcome == Deleted || outcome == Disabled
  }

  /** After a cancel only outcomes that changed a channel are still recorded. */
  predicate Records(j: Job, outcome: Outcome) {
    !j.cancelRequested || Destructive(outcome)
  }

  function ChannelFinished(j: Job, channel: int, outcome: Outcome): Job {
    if !Records(j, outcome) then j
    else Append(j.(processed := j.processed + 1, counts := j.counts.Add(outcome)), Progress(channel, outcome))
  }

  function FinalStatus(j: Job, err: RunError): Status {
    if j.cancelRequested || err.ContextCancelled? then Cancelled
    else if err.Broken? then Failed
    else Succeeded
  }

  function RunFinished(j: Job, err: RunError): Job {
    var status := FinalStatus(j, err);
    var message := match status { case Cancelled => "" case Failed => err.message case _ => j.error };
    Append(j.(status := status, error := message), Complete(status, message))
  }

  function CancelRequested(j: Job): Job {
    if j.status == Running then j.(cancelRequested := true) else j
  }

  /** The log from `after` on, or None when the cursor is outside the log. */
  function Read(j: Job, after: int): Option<JobView> {
    if after < 0 || after > |j.events| then None
    else Some(JobView(j.status, j.events[after..], |j.events|, j.error))
  }

  // ---- the object ----------------------------------------------------------------------------

  class CleanupJob {
    const total: nat
    var status: Status
    var processed: nat
    var counts: Counts
    var events: seq<Event>
    var error: string
    var cancelRequested: bool

    ghost function Value(): Job
      reads this
    {
      Job(total, status, processed, counts, events, error, cancelRequested)
    }

    constructor (total: nat)
      ensures Value() == NewJob(total)
    {
      this.total := total;
      status, processed, counts, events, error, cancelRequested := Running, 0, Counts(0, 0, 0, 0, 0, 0), [], "", false;
      new;
      AppendEvent(Begin);
    }

    method AppendEvent(kind: Kind)
      modifies this`events
      ensures Value() == Append(old(Value()), kind)
    {
      events := events + [Event(kind, |events| + 1, processed, total, counts)];
    }

    method FinishChannel(channel: int, outcome: Outcome) returns (recorded: bool)
      modifies this`processed, this`counts, this`events
      ensures recorded == Records(old(Value()), outcome)
      ensures Value() == ChannelFinished(old(Value()), channel, outcome)
    {
      if cancelRequested && outcome != Deleted && outcome != Disabled {
        return false;
      }
      processed := processed + 1;
      counts := counts.Add(outcome);
      AppendEvent(Progress(channel, outcome));
      recorded := true;
    }

    method FinishRun(err: RunError)
      modifies this`status, this`error, this`events
      ensures Value() == RunFinished(old(Value()), err)
    {
      if cancelRequested || err.ContextCancelled? {
        status, error := Cancelled, "";
      } else if err.Broken? {
        status, error := Failed, err.message;
      } else {
        status := Succeeded;
      }
      AppendEvent(Complete(status, error));
    }

    /** The first half of a cancel: the part done under the job's own lock. */
    method RequestCancel() returns (running: bool)
      modifies this`cancelRequested
      ensures running == (old(status) == Running)
      ensures Value() == CancelRequested(old(Value()))
    {
      running := status == Running;
      if running {
        cancelRequested := true;
      }
    }

    method View(after: int) returns (view: Option<JobView>)
      ensures view == Read(Value(), after)
      ensures view == if 0 <= after <= |events| then Some(JobView(status, events[after..], |events|, error)) else None
    {
      if after < 0 || after > |events| {
        return None;
      }
      view := Some(JobView(status, events[after..], |events|, error));
    }
  }

  // ---- the log accounts for the counters -----------------------------------------------------

  /** The outcomes the log reports, added up. */
  function Tally(events: seq<Event>): Counts {
    if events == [] then Counts(0, 0, 0, 0, 0, 0)
    else
      var before, kind := Tally(events[..|events| - 1]), events[|events| - 1].kind;
      if kind.Progress? then before.Add(kind.outcome) else before
  }

  /** Event `i` carries its place in the log and the counters the log shows up to and including it. */
  ghost predicate Stamped(j: Job, i: nat)
    requires i < |j.events|
  {
    var e := j.events[i];
    && e.sequence == i + 1
    && e.total == j.total
    && e.counts == Tally(j.events[..i + 1])
    && e.processed == e.counts.Sum()
  }

  /** The counters are what the log adds up to, and every event is stamped with them. */
  ghost predicate Accounted(j: Job) {
    && j.counts == Tally(j.events)
    && j.processed == j.counts.Sum()
    && forall i :: 0 <= i < |j.events| ==> Stamped(j, i)
  }

  lemma TallyStep(events: seq<Event>, e: Event)
    ensures Tally(events + [e]) == if e.kind.Progress? then Tally(events).Add(e.kind.outcome) else Tally(events)
  {
    hide Counts.Add;
    assert (events + [e])[..|events|] == events;
  }

  lemma StampKept(j: Job, after: Job, i: nat)
    requires i < |j.events| && Stamped(j, i) && j.events <= after.events && after.total == j.total
    ensures Stamped(after, i)
  {
    hide Tally;
    assert after.events[..i + 1] == j.events[..i + 1];
  }

  lemma AppendAccounted(j: Job, k: Job, kind: Kind)
    requires forall i :: 0 <= i < |j.events| ==> Stamped(j, i)
    requires k.events == j.events && k.total == j.total && k.processed == k.counts.Sum()
    requires k.counts == if kind.Progress? then Tally(j.events).Add(kind.outcome) else Tally(j.events)
    ensures Accounted(Append(k, kind))
  {
    hide Tally, Counts.Add, Counts.Sum;
    var after, n := Append(k, kind), |j.events|;
    TallyStep(j.events, after.events[n]);
    assert after.events[..n + 1] == j.events + [after.events[n]] == after.events;
    assert Stamped(after, n);
    forall i | 0 <= i < |after.events| ensures Stamped(after, i) {
      if i < n { StampKept(j, after, i); }
    }
  }

  /** Every operation keeps the counters equal to what the log says. */
  lemma OperationsAccounted(j: Job, kind: Kind, channel: int, outcome: Outcome, err: RunError)
    requires Accounted(j)
    ensures !kind.Progress? ==> Accounted(Append(j, kind))
    ensures Accounted(ChannelFinished(j, channel, outcome))
    ensures Accounted(RunFinished(j, err))
    ensures Accounted(CancelRequested(j))
  {
    hide Tally;
    if !kind.Progress? { AppendAccounted(j, j, kind); }
    AppendAccounted(j, j.(processed := j.processed + 1, counts := j.counts.Add(outcome)), Progress(channel, outcome));
    AppendAccounted(j, j.(status := FinalStatus(j, err), error := RunFinished(j, err).error),
                    Complete(FinalStatus(j, err), RunFinished(j, err).error));
    forall i | 0 <= i < |j.events| ensures Stamped(CancelRequested(j), i) {
      assert Stamped(j, i);
    }
  }

  lemma NewJobAccounted(total: nat)
    ensures Accounted(NewJob(total))
  {
    AppendAccounted(Job(total, Running, 0, Counts(0, 0, 0, 0, 0, 0), [], "", false),
                    Job(total, Running, 0, Counts(0, 0, 0, 0, 0, 0), [], "", false), Begin);
  }

  // ---- reading by cursor ---------------------------------------------------------------------

  /** A later state of the same job. */
  ghost predicate Later(before: Job, after: Job) {
    before.events <= after.events
  }

  ghost predicate Timeline(states: seq<Job>) {
    && (forall i :: 0 <= i < |states| ==> Accounted(states[i]))
    && forall i :: 0 < i < |states| ==> Later(states[i - 1], states[i])
  }

  /** What a reader gathers that starts at `from` and polls the states in order, each time from the
      sequence number of the last event it was given. */
  function Polled(states: seq<Job>, from: nat): seq<Event>
    decreases |states|
  {
    if states == [] || Read(states[0], from).None? then []
    else
      var got := Read(states[0], from).value.events;
      got + Polled(states[1..], Cursor(got, from))
  }

  function Cursor(got: seq<Event>, from: nat): nat {
    if got == [] then from else got[|got| - 1].sequence
  }

  lemma CursorIsEnd(j: Job, from: nat)
    requires Accounted(j) && from <= |j.events|
    ensures Cursor(j.events[from..], from) == |j.events|
  {
    hide Tally;
    if from < |j.events| { assert Stamped(j, |j.events| - 1); }
  }

  /** However the polls fall, the reader gets the log from its starting point on, each event once. */
  lemma {:induction false} PollReproducesLog(states: seq<Job>, from: nat)
    requires Timeline(states) && states != [] && from <= |states[0].events|
    ensures from <= |states[|states| - 1].events|
    ensures Polled(states, from) == states[|states| - 1].events[from..]
    decreases |states|
  {
    hide Accounted;
    var first, last := states[0], states[|states| - 1];
    var got := first.events[from..];
    CursorIsEnd(first, from);
    FirstBeforeLast(states);
    if |states| > 1 {
      var rest := states[1..];
      forall i | 0 < i < |rest| ensures Later(rest[i - 1], rest[i]) {
        assert Later(states[i], states[i + 1]);
      }
      assert Later(states[0], states[1]);
      PollReproducesLog(rest, |first.events|);
      assert last.events[from..] == got + last.events[|first.events|..];
    } else {
      assert Polled(states[1..], |first.events|) == [];
      assert got + [] == got;
    }
  }

  lemma {:induction false} FirstBeforeLast(states: seq<Job>)
    requires Timeline(states) && states != []
    ensures states[0].events <= states[|states| - 1].events
    decreases |states|
  {
    if |states| > 1 {
      var front := states[..|states| - 1];
      forall i | 0 < i < |front| ensures Later(front[i - 1], front[i]) {
        assert Later(states[i - 1], states[i]);
      }
      FirstBeforeLast(front);
      assert Later(states[|states| - 2], states[|states| - 1]);
    }
  }
}
