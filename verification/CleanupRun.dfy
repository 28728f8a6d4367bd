/** One cleanup run: a dispatcher, up to eight workers and any number of cancel calls, with every
    critical section of the two mutexes one atomic step. */
module CleanupRun {
  import opened Seqs
  import opened CleanupJob

  const WORKERS: nat := 8

  /** Where a worker is. `Gate`, `Passed` and `Acting` hold the destructive mutex. */
  datatype Worker =
    | Waiting                     // blocked on the task channel
    | Taken(channel: nat)         // received a channel, about to look at the context
    | Testing(channel: nat)       // testing or refreshing the credential
    | AtGate(channel: nat)        // blocked on the destructive mutex
    | Gate(channel: nat)          // holds it, about to read the cancel flag
    | Passed(channel: nat)        // read "not cancelled", about to act
    | Acting(channel: nat)        // the delete or disable is in progress
    | Reporting(channel: nat, outcome: Outcome)
    | Exited

  /** A cancel call. `Returned` has answered its caller. */
  datatype Canceller = Fresh | Flagged | Holding | Returned

  datatype Owner = Nobody | WorkerOwns(i: nat) | CancellerOwns(c: nat)

  datatype Verdict = Pending | Ended(err: RunError)

  datatype State = State(
    job: Job, deleting: bool, cancelled: bool, next: nat, closed: bool, workers: seq<Worker>,
    cancellers: seq<Canceller>, owner: Owner, finalizeFailed: bool, verdict: Verdict,
    dropped: nat,                 // channels taken and never reported (bookkeeping)
    mutations: nat)               // actions that came back (true, nil) (bookkeeping)
  {
    predicate Live() { job.status == Running }
  }

  datatype Step =
    | ContextDone                               // the context is cancelled from outside
    | Dispatch(w: nat)                          // hand the next channel to a waiting worker
    | StopDispatch                              // the dispatcher saw the context done
    | CloseTasks                                // every channel was handed out
    | WorkerEnds(w: nat)                        // the closed channel is drained
    | DropTaken(w: nat)                         // the context was done on receipt
    | SkipDisabled(w: nat)                      // already disabled, in disable mode
    | BeginTest(w: nat)                         // the "testing" event
    | StageEvent(w: nat, stage: string)         // "refreshing" or "retesting"
    | TestEnds(w: nat, outcome: Outcome)        // healthy, refreshed or failed
    | Reject(w: nat)                            // the credential is rejected, go for the gate
    | EnterGate(w: nat)
    | ReadFlag(w: nat)
    | BeginAction(w: nat)
    | EndAction(w: nat, mutated: bool, failed: bool, finalizeFails: bool)
    | Report(w: nat)
    | CancelFlags(c: nat)                       // under the job lock
    | CancelLocks(c: nat)                       // takes the destructive mutex
    | CancelReturns(c: nat)                     // releases it
    | WorkersDone                               // the wait group is empty: fix the run's result
    | Finish                                    // finishRun

  predicate Holds(w: Worker) {
    w.Gate? || w.Passed? || w.Acting?
  }

  /** The worker still owes a report for a channel it took. */
  predicate Busy(w: Worker) {
    !w.Waiting? && !w.Exited?
  }

  /** The worker changed its channel and has not reported it yet. */
  predicate OwesMutation(w: Worker) {
    w.Reporting? && Destructive(w.outcome)
  }

  predicate AllExited(ws: seq<Worker>) {
    forall i :: 0 <= i < |ws| ==> ws[i].Exited?
  }

  function Min(a: nat, b: nat): nat {
    if a < b then a else b
  }

  function Init(total: nat, deleting: bool, cancellers: nat): State {
    State(NewJob(total), deleting, false, 0, false, seq(Min(WORKERS, total), _ => Waiting),
          seq(cancellers, _ => Fresh), Nobody, false, Pending, 0, 0)
  }

  // ---- steps ---------------------------------------------------------------------------------

  predicate At(s: State, w: nat) {
    w < |s.workers|
  }

  /** A worker looks at the context a while before it goes on, so going on is possible after a cancel too. */
  predicate Enabled(s: State, step: Step) {
    match step
    case ContextDone => true
    case Dispatch(w) => At(s, w) && s.workers[w].Waiting? && !s.closed && s.next < s.job.total
    case StopDispatch => !s.closed && s.cancelled && s.next < s.job.total
    case CloseTasks => !s.closed && s.next == s.job.total
    case WorkerEnds(w) => At(s, w) && s.workers[w].Waiting? && s.closed
    case DropTaken(w) => At(s, w) && s.workers[w].Taken? && s.cancelled
    case SkipDisabled(w) => At(s, w) && s.workers[w].Taken? && !s.deleting
    case BeginTest(w) => At(s, w) && s.workers[w].Taken?
    case StageEvent(w, stage) => At(s, w) && s.workers[w].Testing?
    case TestEnds(w, outcome) => At(s, w) && s.workers[w].Testing? && outcome in {Healthy, Refreshed, Faulty}
    case Reject(w) => At(s, w) && s.workers[w].Testing?
    case EnterGate(w) => At(s, w) && s.workers[w].AtGate? && s.owner == Nobody
    case ReadFlag(w) => At(s, w) && s.workers[w].Gate?
    case BeginAction(w) => At(s, w) && s.workers[w].Passed?
    case EndAction(w, mutated, failed, finalizeFails) => At(s, w) && s.workers[w].Acting?
    case Report(w) => At(s, w) && s.workers[w].Reporting?
    case CancelFlags(c) => c < |s.cancellers| && s.cancellers[c].Fresh?
    case CancelLocks(c) => c < |s.cancellers| && s.cancellers[c].Flagged? && s.owner == Nobody
    case CancelReturns(c) => c < |s.cancellers| && s.cancellers[c].Holding?
    case WorkersDone => s.closed && AllExited(s.workers) && s.verdict.Pending?
    case Finish => s.verdict.Ended? && s.Live()
  }

  function SetCanceller(s: State, c: nat, to: Canceller): State
    requires c < |s.cancellers|
  {
    s.(cancellers := s.cancellers[c := to])
  }

  /** The outcome of an action that came back. */
  function ActionOutcome(s: State, mutated: bool, failed: bool): Outcome {
    if failed then Faulty else if !mutated then Skipped else if s.deleting then Deleted else Disabled
  }

  /** The worker a step moves. */
  function Mover(step: Step): Option<nat> {
    match step
    case Dispatch(w) => Some(w)
    case WorkerEnds(w) => Some(w)
    case DropTaken(w) => Some(w)
    case SkipDisabled(w) => Some(w)
    case BeginTest(w) => Some(w)
    case StageEvent(w, _) => Some(w)
    case TestEnds(w, _) => Some(w)
    case Reject(w) => Some(w)
    case EnterGate(w) => Some(w)
    case ReadFlag(w) => Some(w)
    case BeginAction(w) => Some(w)
    case EndAction(w, _, _, _) => Some(w)
    case Report(w) => Some(w)
    case _ => None
  }

  /** All that a worker can change: its own place, the job's log, and the shared counters and flags. */
  datatype Move = Move(
    worker: Worker, job: Job, owner: Owner, next: nat, finalizeFailed: bool, dropped: nat, mutations: nat)

  function Moved(s: State, step: Step): Move
    requires Enabled(s, step) && Mover(step).Some?
  {
    var now := s.workers[Mover(step).value];
    var m := Move(now, s.job, s.owner, s.next, s.finalizeFailed, s.dropped, s.mutations);
    match step
    case Dispatch(w) => m.(worker := Taken(s.next), next := s.next + 1)
    case WorkerEnds(w) => m.(worker := Exited)
    case DropTaken(w) => m.(worker := Exited, dropped := s.dropped + 1)
    case SkipDisabled(w) => m.(worker := Reporting(now.channel, Skipped))
    case BeginTest(w) => m.(worker := Testing(now.channel), job := Append(s.job, Stage(now.channel, "testing")))
    case StageEvent(w, stage) => m.(job := Append(s.job, Stage(now.channel, stage)))
    case TestEnds(w, outcome) => m.(worker := Reporting(now.channel, outcome))
    case Reject(w) => m.(worker := AtGate(now.channel))
    case EnterGate(w) => m.(worker := Gate(now.channel), owner := WorkerOwns(w))
    case ReadFlag(w) =>
      if s.job.cancelRequested then m.(worker := Reporting(now.channel, Faulty), owner := Nobody)
      else m.(worker := Passed(now.channel))
    case BeginAction(w) =>
      m.(worker := Acting(now.channel),
         job := Append(s.job, Stage(now.channel, if s.deleting then "deleting" else "disabling")))
    case EndAction(w, mutated, failed, finalizeFails) =>
      m.(worker := Reporting(now.channel, ActionOutcome(s, mutated, failed)),
         owner := Nobody,
         finalizeFailed := s.finalizeFailed || (mutated && !failed && s.deleting && finalizeFails),
         mutations := s.mutations + if mutated && !failed then 1 else 0)
    case Report(w) =>
      m.(worker := Waiting,
         job := ChannelFinished(s.job, now.channel, now.outcome),
         dropped := s.dropped + if Records(s.job, now.outcome) then 0 else 1)
  }

  /** A step of one worker. */
  function WorkerApply(s: State, step: Step): State
    requires Enabled(s, step) && Mover(step).Some?
  {
    var m := Moved(s, step);
    s.(workers := s.workers[Mover(step).value := m.worker], job := m.job, owner := m.owner, next := m.next,
       finalizeFailed := m.finalizeFailed, dropped := m.dropped, mutations := m.mutations)
  }

  /** A step of the dispatcher, a cancel call, or the end of the run. */
  function OtherApply(s: State, step: Step): State
    requires Enabled(s, step) && Mover(step).None?
  {
    match step
    case ContextDone => s.(cancelled := true)
    case StopDispatch => s.(closed := true)
    case CloseTasks => s.(closed := true)
    case CancelFlags(c) =>
      if s.Live() then SetCanceller(s, c, Flagged).(job := CancelRequested(s.job), cancelled := true)
      else SetCanceller(s, c, Returned)
    case CancelLocks(c) => SetCanceller(s, c, Holding).(owner := CancellerOwns(c))
    case CancelReturns(c) => SetCanceller(s, c, Returned).(owner := Nobody)
    case WorkersDone =>
      s.(verdict := Ended(
        if s.job.total == 0 then NoError
        else if s.cancelled then ContextCancelled
        else if s.finalizeFailed then Broken("finalize") else NoError))
    case Finish => s.(job := RunFinished(s.job, s.verdict.err))
  }

  function Apply(s: State, step: Step): State
    requires Enabled(s, step)
  {
    if Mover(step).Some? then WorkerApply(s, step) else OtherApply(s, step)
  }

  /** The state after `steps`, or None when one of them was not possible. */
  function Run(s: State, steps: seq<Step>): Option<State>
    decreases |steps|
  {
    if steps == [] then Some(s)
    else
      var before := Run(s, steps[..|steps| - 1]);
      var step := steps[|steps| - 1];
      if before.Some? && Enabled(before.value, step) then Some(Apply(before.value, step)) else None
  }

  // ---- invariants ----------------------------------------------------------------------------

  /** The destructive mutex has one holder, and the state says who. */
  ghost predicate MutexInv(s: State) {
    && (forall i :: 0 <= i < |s.workers| ==> (Holds(s.workers[i]) <==> s.owner == WorkerOwns(i)))
    && (forall c :: 0 <= c < |s.cancellers| ==> (s.cancellers[c].Holding? <==> s.owner == CancellerOwns(c)))
    && (s.owner.WorkerOwns? ==> s.owner.i < |s.workers|)
    && (s.owner.CancellerOwns? ==> s.owner.c < |s.cancellers|)
  }

  predicate PastGate(w: Worker) {
    w.Passed? || w.Acting?
  }

  predicate Answering(c: Canceller) {
    c.Holding? || c.Returned?
  }

  /** Some cancel call is answered or holds the mutex, so nobody is past the gate. */
  ghost predicate GateInv(s: State) {
    && (forall c :: 0 <= c < |s.cancellers| && !s.cancellers[c].Fresh? ==> s.job.cancelRequested || !s.Live())
    && (forall c, i :: 0 <= c < |s.cancellers| && 0 <= i < |s.workers| && Answering(s.cancellers[c]) ==>
                       !PastGate(s.workers[i]))
  }

  /** Channels handed out are reported, dropped or in hand; changed channels are counted or in hand. */
  ghost predicate CountInv(s: State) {
    && |s.workers| == Min(WORKERS, s.job.total)
    && s.next <= s.job.total
    && s.next == s.job.processed + s.dropped + Count(Busy, s.workers)
    && s.mutations == s.job.counts.disabled + s.job.counts.deleted + Count(OwesMutation, s.workers)
    && (s.dropped > 0 ==> s.cancelled || s.job.cancelRequested)
    && (s.closed && s.next < s.job.total ==> s.cancelled)
    && (s.job.cancelRequested ==> s.cancelled)
  }

  /** The run ends once, after everyone left. */
  ghost predicate EndInv(s: State) {
    && (s.verdict.Ended? ==> s.closed && AllExited(s.workers))
    && (s.verdict.Ended? && s.verdict.err.NoError? && s.job.total > 0 ==> s.next == s.job.total && s.dropped == 0)
    && (!s.Live() ==> s.verdict.Ended?)
    && (s.job.status == Succeeded ==> s.verdict.err.NoError?)
  }

  /** The log holds a "complete" event exactly when the run is over, and it is the last one. */
  ghost predicate LogInv(s: State) {
    && Accounted(s.job)
    && s.job.events != []
    && (forall i :: 0 <= i < |s.job.events| - 1 ==> !s.job.events[i].kind.Complete?)
    && (s.job.events[|s.job.events| - 1].kind.Complete? <==> !s.Live())
    && (!s.Live() ==> s.job.events[|s.job.events| - 1].kind.status == s.job.status)
  }

  ghost predicate Inv(s: State) {
    MutexInv(s) && GateInv(s) && CountInv(s) && EndInv(s) && LogInv(s)
  }

  // ---- counting workers ----------------------------------------------------------------------

  lemma {:induction false} CountUpdate<A>(p: A -> bool, xs: seq<A>, i: nat, x: A)
    requires i < |xs|
    ensures Count(p, xs[i := x]) == Count(p, xs) - (if p(xs[i]) then 1 else 0) + (if p(x) then 1 else 0)
  {
    var n := |xs| - 1;
    if i == n {
      assert xs[i := x][..n] == xs[..n];
    } else {
      assert xs[i := x][..n] == xs[..n][i := x];
      CountUpdate(p, xs[..n], i, x);
    }
  }

  lemma {:induction false} CountNone<A>(p: A -> bool, xs: seq<A>)
    requires forall i :: 0 <= i < |xs| ==> !p(xs[i])
    ensures Count(p, xs) == 0
  {
    if xs != [] { CountNone(p, xs[..|xs| - 1]); }
  }

  // ---- the shape of a step -------------------------------------------------------------------

  /** Neither events nor outcomes end a job, cancel it or change its size. */
  lemma JobFrame(j: Job, kind: Kind, channel: int, outcome: Outcome)
    ensures var after := Append(j, kind);
      && after.cancelRequested == j.cancelRequested && after.status == j.status && after.total == j.total
      && after.processed == j.processed && after.counts == j.counts
    ensures var after := ChannelFinished(j, channel, outcome);
      after.cancelRequested == j.cancelRequested && after.status == j.status && after.total == j.total
  {
  }

  lemma WorkerThere(s: State, step: Step)
    requires Enabled(s, step) && Mover(step).Some?
    ensures At(s, Mover(step).value) && !s.workers[Mover(step).value].Exited?
  {
  }

  lemma WorkerJobFrame(s: State, step: Step)
    requires Enabled(s, step) && Mover(step).Some?
    ensures var before, after := s.job, Moved(s, step).job;
      after.cancelRequested == before.cancelRequested && after.status == before.status && after.total == before.total
  {
    hide Append, ChannelFinished, ActionOutcome, Records;
    match step
    case BeginTest(w) => JobFrame(s.job, Stage(s.workers[w].channel, "testing"), 0, Healthy);
    case StageEvent(w, stage) => JobFrame(s.job, Stage(s.workers[w].channel, stage), 0, Healthy);
    case BeginAction(w) =>
      JobFrame(s.job, Stage(s.workers[w].channel, if s.deleting then "deleting" else "disabling"), 0, Healthy);
    case Report(w) => JobFrame(s.job, Begin, s.workers[w].channel, s.workers[w].outcome);
    case _ =>
  }

  /** What a worker's step does to everyone else: nothing. */
  lemma WorkerStep(s: State, step: Step)
    requires Enabled(s, step) && Mover(step).Some?
    ensures var w, t := Mover(step).value, Apply(s, step);
      && At(s, w) && At(t, w)
      && !s.workers[w].Exited?
      && t.workers == s.workers[w := t.workers[w]]
      && t.cancellers == s.cancellers
      && t.job.cancelRequested == s.job.cancelRequested && t.job.status == s.job.status && t.job.total == s.job.total
      && t.verdict == s.verdict && t.closed == s.closed && t.cancelled == s.cancelled
  {
    hide Moved, OtherApply, Enabled, Mover;
    WorkerThere(s, step);
    WorkerJobFrame(s, step);
  }

  /** How a worker's step moves the mutex. */
  lemma WorkerStepOwner(s: State, step: Step)
    requires Enabled(s, step) && Mover(step).Some? && At(s, Mover(step).value)
    ensures var w, t := Mover(step).value, Apply(s, step);
      && At(t, w)
      && match (Holds(s.workers[w]), Holds(t.workers[w]))
         case (false, true) => s.owner == Nobody && t.owner == WorkerOwns(w)
         case (true, false) => t.owner == Nobody
         case _ => t.owner == s.owner
  {
    hide ChannelFinished, Append;
  }

  /** Past the gate only by reading "not cancelled", or by having been past it. */
  lemma WorkerStepGate(s: State, step: Step)
    requires Enabled(s, step) && Mover(step).Some? && At(s, Mover(step).value)
    ensures var w, t := Mover(step).value, Apply(s, step);
      At(t, w) && (PastGate(t.workers[w]) ==> PastGate(s.workers[w]) || !s.job.cancelRequested)
  {
    hide ChannelFinished, Append;
  }

  // ---- preservation --------------------------------------------------------------------------

  lemma InitInv(total: nat, deleting: bool, cancellers: nat)
    ensures Inv(Init(total, deleting, cancellers))
  {
    hide Accounted, Tally, Count;
    var s := Init(total, deleting, cancellers);
    NewJobAccounted(total);
    InitCounts(total);
    assert MutexInv(s);
    assert GateInv(s);
    assert CountInv(s);
    assert EndInv(s);
    assert LogInv(s) by { hide MutexInv, GateInv, CountInv, EndInv; }
  }

  lemma InitCounts(total: nat)
    ensures Count(Busy, seq(Min(WORKERS, total), _ => Waiting)) == 0
    ensures Count(OwesMutation, seq(Min(WORKERS, total), _ => Waiting)) == 0
  {
    hide Count;
    CountNone(Busy, seq(Min(WORKERS, total), _ => Waiting));
    CountNone(OwesMutation, seq(Min(WORKERS, total), _ => Waiting));
  }

  lemma StepMutex(s: State, step: Step)
    requires MutexInv(s) && Enabled(s, step)
    ensures MutexInv(Apply(s, step))
  {
    hide Apply, Enabled, MutexInv, Mover;
    if Mover(step).Some? {
      WorkerStep(s, step);
      WorkerMutex(s, step);
    } else {
      OtherMutex(s, step);
    }
  }

  lemma WorkerMutex(s: State, step: Step)
    requires MutexInv(s) && Enabled(s, step) && Mover(step).Some? && At(s, Mover(step).value)
    ensures MutexInv(Apply(s, step))
  {
    hide Apply, Enabled, Holds, Mover;
    WorkerStep(s, step);
    WorkerStepOwner(s, step);
  }

  predicate CancelStep(step: Step) {
    step.CancelFlags? || step.CancelLocks? || step.CancelReturns?
  }

  /** Everything but a worker and a cancel call leaves the mutex and the callers alone. */
  lemma QuietFrame(s: State, step: Step)
    requires Enabled(s, step) && Mover(step).None? && !CancelStep(step)
    ensures var t := OtherApply(s, step);
      t.workers == s.workers && t.cancellers == s.cancellers && t.owner == s.owner
  {
    hide Enabled, RunFinished;
  }

  lemma CancelFrame(s: State, step: Step)
    requires Enabled(s, step) && CancelStep(step)
    ensures var t := OtherApply(s, step);
      && t.workers == s.workers && step.c < |s.cancellers| && |t.cancellers| == |s.cancellers|
      && t.cancellers == s.cancellers[step.c := t.cancellers[step.c]]
      && t.job == (if step.CancelFlags? then CancelRequested(s.job) else s.job)
      && (step.CancelLocks? ==> s.owner.Nobody? && s.cancellers[step.c].Flagged?)
      && (step.CancelLocks? ==> t.owner == CancellerOwns(step.c) && t.cancellers[step.c].Holding?)
      && (step.CancelReturns? ==> s.cancellers[step.c].Holding? && t.owner.Nobody? && t.cancellers[step.c].Returned?)
      && (step.CancelFlags? ==> s.cancellers[step.c].Fresh? && t.owner == s.owner &&
                                t.cancellers[step.c] == if s.Live() then Flagged else Returned)
  {
    hide RunFinished;
  }

  lemma OtherMutex(s: State, step: Step)
    requires MutexInv(s) && Enabled(s, step) && Mover(step).None?
    ensures MutexInv(Apply(s, step))
  {
    hide OtherApply, Enabled, Holds;
    if CancelStep(step) { CancelFrame(s, step); } else { QuietFrame(s, step); }
  }

  lemma StepGate(s: State, step: Step)
    requires MutexInv(s) && GateInv(s) && EndInv(s) && Enabled(s, step)
    ensures GateInv(Apply(s, step))
  {
    hide Apply, Enabled, MutexInv, GateInv, EndInv, Mover;
    if Mover(step).Some? {
      WorkerGate(s, step);
    } else {
      OtherGate(s, step);
    }
  }

  lemma WorkerGate(s: State, step: Step)
    requires GateInv(s) && EndInv(s) && Enabled(s, step) && Mover(step).Some?
    ensures GateInv(Apply(s, step))
  {
    hide Apply, Enabled, Mover, PastGate;
    WorkerStep(s, step);
    WorkerStepGate(s, step);
    assert s.Live();
  }

  /** A cancelled job stays cancelled, and an ended one ended. */
  lemma QuietJob(s: State, step: Step)
    requires Enabled(s, step) && Mover(step).None? && !CancelStep(step)
    ensures var before, after := s.job, OtherApply(s, step).job;
      (before.cancelRequested ==> after.cancelRequested) && (before.status != Running ==> after.status != Running)
  {
    hide Enabled;
  }

  lemma OtherGate(s: State, step: Step)
    requires MutexInv(s) && GateInv(s) && EndInv(s) && Enabled(s, step) && Mover(step).None?
    ensures GateInv(Apply(s, step))
  {
    hide OtherApply, Enabled;
    if CancelStep(step) {
      CancelFrame(s, step);
      if step.CancelLocks? || (step.CancelFlags? && !s.Live()) {
        assert forall i :: 0 <= i < |s.workers| ==> !PastGate(s.workers[i]);
      }
    } else {
      QuietFrame(s, step);
      QuietJob(s, step);
    }
  }

  /** A worker's step keeps the books: a channel it takes is reported, dropped or in hand. */
  lemma WorkerStepCounts(s: State, step: Step)
    requires Enabled(s, step) && Mover(step).Some? && At(s, Mover(step).value)
    requires s.dropped > 0 ==> s.cancelled || s.job.cancelRequested
    ensures var w, t := Mover(step).value, Apply(s, step);
      && At(t, w)
      && t.next + (if Busy(s.workers[w]) then 1 else 0) + s.job.processed + s.dropped ==
         s.next + (if Busy(t.workers[w]) then 1 else 0) + t.job.processed + t.dropped
      && (t.dropped > 0 ==> t.cancelled || t.job.cancelRequested)
      && (s.next <= s.job.total ==> t.next <= t.job.total)
      && t.next == s.next + (if step.Dispatch? then 1 else 0) && (step.Dispatch? ==> !s.closed)
  {
    hide Counts.Add, OwesMutation;
  }

  /** And a channel it changes is counted as changed, or about to be. */
  lemma WorkerStepMutations(s: State, step: Step)
    requires Enabled(s, step) && Mover(step).Some? && At(s, Mover(step).value)
    ensures var w, t := Mover(step).value, Apply(s, step);
      && At(t, w)
      && t.mutations + (if OwesMutation(s.workers[w]) then 1 else 0) + s.job.counts.disabled + s.job.counts.deleted ==
         s.mutations + (if OwesMutation(t.workers[w]) then 1 else 0) + t.job.counts.disabled + t.job.counts.deleted
  {
    hide Busy;
  }

  lemma OtherStepCounts(s: State, step: Step)
    requires Enabled(s, step) && Mover(step).None?
    ensures var t := Apply(s, step);
      && t.workers == s.workers && t.next == s.next && t.dropped == s.dropped && t.mutations == s.mutations
      && t.job.processed == s.job.processed && t.job.counts == s.job.counts && t.job.total == s.job.total
      && (s.cancelled ==> t.cancelled) && (s.job.cancelRequested ==> t.job.cancelRequested)
      && (t.job.cancelRequested ==> s.job.cancelRequested || t.cancelled)
      && (t.closed && !s.closed && s.next < s.job.total ==> t.cancelled)
  {
  }

  lemma StepCount(s: State, step: Step)
    requires CountInv(s) && Enabled(s, step)
    ensures CountInv(Apply(s, step))
  {
    hide Count, Apply, Enabled, Busy, OwesMutation;
    var t := Apply(s, step);
    if Mover(step).Some? {
      WorkerStep(s, step);
      WorkerStepCounts(s, step);
      WorkerStepMutations(s, step);
      var w := Mover(step).value;
      CountUpdate(Busy, s.workers, w, t.workers[w]);
      CountUpdate(OwesMutation, s.workers, w, t.workers[w]);
    } else {
      OtherStepCounts(s, step);
    }
  }

  lemma StepEnd(s: State, step: Step)
    requires CountInv(s) && EndInv(s) && Enabled(s, step)
    ensures EndInv(Apply(s, step))
  {
    hide Count, ChannelFinished;
    if Mover(step).Some? {
      WorkerStep(s, step);
      assert s.verdict.Pending?;
      assert s.Live();
      assert !s.Live() || Apply(s, step).verdict.Pending?;
    } else if step.WorkersDone? {
      CountNone(Busy, s.workers);
    }
  }

  ghost predicate JobLog(j: Job) {
    && Accounted(j)
    && j.events != []
    && (forall i :: 0 <= i < |j.events| - 1 ==> !j.events[i].kind.Complete?)
    && (j.events[|j.events| - 1].kind.Complete? <==> j.status != Running)
    && (j.status != Running ==> j.events[|j.events| - 1].kind.status == j.status)
  }

  /** While the job runs, every entry keeps the log well formed; the last one closes it. */
  lemma LogOperations(j: Job, kind: Kind, channel: int, outcome: Outcome, err: RunError)
    requires JobLog(j) && j.status == Running
    ensures !kind.Progress? && !kind.Complete? ==> JobLog(Append(j, kind))
    ensures JobLog(ChannelFinished(j, channel, outcome))
    ensures JobLog(RunFinished(j, err))
  {
    hide Accounted;
    OperationsAccounted(j, kind, channel, outcome, err);
  }

  lemma WorkerStepLog(s: State, step: Step)
    requires Enabled(s, step) && Mover(step).Some? && s.Live() && JobLog(s.job)
    ensures JobLog(Apply(s, step).job)
  {
    hide Append, ChannelFinished, RunFinished, JobLog;
    var w := Mover(step).value;
    var channel := if s.workers[w].Waiting? || s.workers[w].Exited? then 0 else s.workers[w].channel;
    match step
    case BeginTest(_) => LogOperations(s.job, Stage(channel, "testing"), 0, Healthy, NoError);
    case StageEvent(_, stage) => LogOperations(s.job, Stage(channel, stage), 0, Healthy, NoError);
    case BeginAction(_) =>
      LogOperations(s.job, Stage(channel, if s.deleting then "deleting" else "disabling"), 0, Healthy, NoError);
    case Report(_) => LogOperations(s.job, Begin, channel, s.workers[w].outcome, NoError);
    case _ =>
  }

  lemma LogIsJobLog(s: State)
    ensures LogInv(s) <==> JobLog(s.job)
  {
    hide Accounted;
  }

  lemma CancelLog(j: Job)
    requires JobLog(j)
    ensures JobLog(CancelRequested(j))
  {
    hide Accounted;
    OperationsAccounted(j, Begin, 0, Healthy, NoError);
  }

  lemma StepLog(s: State, step: Step)
    requires EndInv(s) && LogInv(s) && Enabled(s, step)
    ensures LogInv(Apply(s, step))
  {
    hide JobLog, LogInv, Append, ChannelFinished, RunFinished, CancelRequested;
    LogIsJobLog(s);
    LogIsJobLog(Apply(s, step));
    if Mover(step).Some? {
      WorkerStep(s, step);
      assert s.Live();
      hide Apply;
      WorkerStepLog(s, step);
    } else if step.Finish? {
      LogOperations(s.job, Begin, 0, Healthy, s.verdict.err);
    } else if step.CancelFlags? {
      CancelLog(s.job);
    }
  }

  lemma {:induction false} RunInv(s: State, steps: seq<Step>)
    requires Inv(s) && Run(s, steps).Some?
    ensures Inv(Run(s, steps).value)
    decreases |steps|
  {
    hide MutexInv, GateInv, CountInv, EndInv, LogInv, Enabled, Apply;
    if steps != [] {
      var front, step := steps[..|steps| - 1], steps[|steps| - 1];
      RunInv(s, front);
      var before := Run(s, front).value;
      StepMutex(before, step);
      StepGate(before, step);
      StepCount(before, step);
      StepEnd(before, step);
      StepLog(before, step);
    }
  }

  // ---- what holds of every run ---------------------------------------------------------------

  ghost predicate Reached(s: State, total: nat, deleting: bool, cancellers: nat, steps: seq<Step>) {
    Run(Init(total, deleting, cancellers), steps) == Some(s)
  }

  lemma ReachedInv(s: State, total: nat, deleting: bool, cancellers: nat, steps: seq<Step>)
    requires Reached(s, total, deleting, cancellers, steps)
    ensures Inv(s)
  {
    hide Inv, Run;
    InitInv(total, deleting, cancellers);
    RunInv(Init(total, deleting, cancellers), steps);
  }

  /** The cancellation gate: in any interleaving, once some cancel call is answered no delete or disable
      is in progress and none begins. */
  lemma CancellationGate(s: State, total: nat, deleting: bool, cancellers: nat, steps: seq<Step>, c: nat)
    requires Reached(s, total, deleting, cancellers, steps)
    requires c < |s.cancellers| && s.cancellers[c].Returned?
    ensures forall w :: 0 <= w < |s.workers| ==> !s.workers[w].Passed? && !s.workers[w].Acting?
    ensures forall step :: Enabled(s, step) ==> !step.BeginAction? && !step.EndAction?
  {
    hide MutexInv, CountInv, EndInv, LogInv, Reached;
    ReachedInv(s, total, deleting, cancellers, steps);
    assert forall w :: 0 <= w < |s.workers| ==> !PastGate(s.workers[w]);
  }

  /** An answered cancel call stays answered. */
  lemma {:induction false} StaysReturned(s: State, steps: seq<Step>, c: nat)
    requires c < |s.cancellers| && s.cancellers[c].Returned? && Run(s, steps).Some?
    ensures c < |Run(s, steps).value.cancellers| && Run(s, steps).value.cancellers[c].Returned?
    decreases |steps|
  {
    hide Enabled, Apply;
    if steps != [] {
      StaysReturned(s, steps[..|steps| - 1], c);
      StepStaysReturned(Run(s, steps[..|steps| - 1]).value, steps[|steps| - 1], c);
    }
  }

  lemma StepStaysReturned(s: State, step: Step, c: nat)
    requires Enabled(s, step) && c < |s.cancellers| && s.cancellers[c].Returned?
    ensures c < |Apply(s, step).cancellers| && Apply(s, step).cancellers[c].Returned?
  {
    hide ChannelFinished, RunFinished, Append;
    if Mover(step).Some? { WorkerStep(s, step); }
  }

  lemma {:induction false} RunAppend(s: State, steps: seq<Step>, more: seq<Step>)
    requires Run(s, steps).Some?
    ensures Run(s, steps + more) == Run(Run(s, steps).value, more)
    decreases |more|
  {
    hide Enabled, Apply;
    if more == [] {
      assert steps + more == steps;
    } else {
      assert (steps + more)[..|steps + more| - 1] == steps + more[..|more| - 1];
      RunAppend(s, steps, more[..|more| - 1]);
    }
  }

  /** Over whole runs: after a cancel call was answered, no later step of the run begins an action. */
  lemma NoActionAfterCancel(total: nat, deleting: bool, cancellers: nat, steps: seq<Step>, i: nat, c: nat, j: nat)
    requires Run(Init(total, deleting, cancellers), steps).Some? && i <= j < |steps|
    requires Run(Init(total, deleting, cancellers), steps[..i]).Some?
    requires var s := Run(Init(total, deleting, cancellers), steps[..i]).value;
        c < |s.cancellers| && s.cancellers[c].Returned?
    ensures !steps[j].BeginAction? && !steps[j].EndAction?
  {
    hide Inv, Run, Enabled;
    var init := Init(total, deleting, cancellers);
    PrefixRuns(init, steps, j);
    assert steps[..i] + steps[i..j] == steps[..j];
    RunAppend(init, steps[..i], steps[i..j]);
    StaysReturned(Run(init, steps[..i]).value, steps[i..j], c);
    CancellationGate(Run(init, steps[..j]).value, total, deleting, cancellers, steps[..j], c);
  }

  lemma {:induction false} PrefixRuns(s: State, steps: seq<Step>, j: nat)
    requires Run(s, steps).Some? && j < |steps|
    ensures Run(s, steps[..j]).Some? && Enabled(Run(s, steps[..j]).value, steps[j])
    decreases |steps|
  {
    hide Enabled, Apply;
    var front := steps[..|steps| - 1];
    if j < |front| {
      PrefixRuns(s, front, j);
      assert front[..j] == steps[..j];
    }
  }

  lemma {:induction false} RunTotal(s: State, steps: seq<Step>)
    requires Run(s, steps).Some?
    ensures Run(s, steps).value.job.total == s.job.total
    decreases |steps|
  {
    hide Enabled, Apply;
    if steps != [] {
      var before, step := Run(s, steps[..|steps| - 1]).value, steps[|steps| - 1];
      RunTotal(s, steps[..|steps| - 1]);
      if Mover(step).Some? { WorkerStep(before, step); } else { OtherStepCounts(before, step); }
    }
  }

  /** Accounting in every reachable state: the six counters add up to the processed channels, never
      more than there are, and every event is stamped with the counters the log shows at its place. */
  lemma CleanupAccounting(s: State, total: nat, deleting: bool, cancellers: nat, steps: seq<Step>)
    requires Reached(s, total, deleting, cancellers, steps)
    ensures s.job.counts.Sum() == s.job.processed <= s.job.total == total
    ensures s.job.counts == Tally(s.job.events)
    ensures s.job.counts.disabled + s.job.counts.deleted <= s.mutations
  {
    hide MutexInv, GateInv, EndInv, Run;
    ReachedInv(s, total, deleting, cancellers, steps);
    RunTotal(Init(total, deleting, cancellers), steps);
  }

  /** At the end, cancelled or not, exactly the channels that were changed are counted as changed; a run
      that succeeded processed every channel; the log ends with its only "complete" event. */
  lemma CleanupCompletion(s: State, total: nat, deleting: bool, cancellers: nat, steps: seq<Step>)
    requires Reached(s, total, deleting, cancellers, steps) && s.job.status != Running
    ensures s.job.counts.disabled + s.job.counts.deleted == s.mutations
    ensures s.job.status == Succeeded ==> s.job.processed == s.job.total
    ensures var log := s.job.events;
      && log != [] && log[|log| - 1].kind.Complete? && log[|log| - 1].kind.status == s.job.status
      && forall i :: 0 <= i < |log| - 1 ==> !log[i].kind.Complete?
  {
    hide MutexInv, GateInv, Reached, Count;
    ReachedInv(s, total, deleting, cancellers, steps);
    CountNone(OwesMutation, s.workers);
    CountNone(Busy, s.workers);
  }
}
