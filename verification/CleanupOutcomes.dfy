/** What a cleanup run reports about its channels: each at most once, in the mode of the run, and counted under its
    own outcome; and what its final status tells. */
module CleanupOutcomes {
  import opened Seqs
  import opened CleanupJob
  import opened CleanupRun

  // ---- the counters --------------------------------------------------------------------------

  predicate Reports(e: Event, outcome: Outcome) {
    e.kind.Progress? && e.kind.outcome == outcome
  }

  /** How many channels the log reports with this outcome. */
  function Reported(events: seq<Event>, outcome: Outcome): nat {
    Count((e: Event) => Reports(e, outcome), events)
  }

  lemma ReportedStep(events: seq<Event>, e: Event, outcome: Outcome)
    ensures Reported(events + [e], outcome) == Reported(events, outcome) + if Reports(e, outcome) then 1 else 0
  {
    assert (events + [e])[..|events|] == events;
  }

  /** The tally of a log counts each outcome by itself. */
  lemma {:induction false} TallyCounts(events: seq<Event>)
    ensures var c := Tally(events);
      && c.healthy == Reported(events, Healthy) && c.refreshed == Reported(events, Refreshed)
      && c.disabled == Reported(events, Disabled) && c.deleted == Reported(events, Deleted)
      && c.skipped == Reported(events, Skipped) && c.failed == Reported(events, Faulty)
  {
    hide Reported;
    if events == [] {
      NothingReported();
    } else {
      var front, e := events[..|events| - 1], events[|events| - 1];
      assert events == front + [e];
      TallyCounts(front);
      ReportedStep(front, e, Healthy);
      ReportedStep(front, e, Refreshed);
      ReportedStep(front, e, Disabled);
      ReportedStep(front, e, Deleted);
      ReportedStep(front, e, Skipped);
      ReportedStep(front, e, Faulty);
    }
  }

  lemma NothingReported()
    ensures forall outcome :: Reported([], outcome) == 0
  {
  }

  // ---- channels are reported once ------------------------------------------------------------

  predicate Tells(e: Event, channel: int) {
    e.kind.Progress? && e.kind.channel == channel
  }

  /** No two events of the log report one channel, and none a channel that was not handed out. */
  ghost predicate LogOnce(events: seq<Event>, next: nat) {
    && (forall i, j :: 0 <= i < j < |events| && events[i].kind.Progress? && events[j].kind.Progress? ==>
          events[i].kind.channel != events[j].kind.channel)
    && (forall i :: 0 <= i < |events| && events[i].kind.Progress? ==> 0 <= events[i].kind.channel < next)
  }

  /** Workers hold different channels, handed out and not reported yet. */
  ghost predicate HandsOnce(workers: seq<Worker>, events: seq<Event>, next: nat) {
    && (forall i :: 0 <= i < |workers| && Busy(workers[i]) ==>
          workers[i].channel < next && forall k :: 0 <= k < |events| ==> !Tells(events[k], workers[i].channel))
    && (forall i, j :: 0 <= i < j < |workers| && Busy(workers[i]) && Busy(workers[j]) ==>
          workers[i].channel != workers[j].channel)
  }

  ghost predicate Once(s: State) {
    LogOnce(s.job.events, s.next) && HandsOnce(s.workers, s.job.events, s.next)
  }

  /** One event more, which reports no channel. */
  ghost predicate Noted(before: seq<Event>, after: seq<Event>) {
    exists e: Event :: after == before + [e] && !e.kind.Progress?
  }

  /** One event more, which reports this channel. */
  ghost predicate Told(before: seq<Event>, after: seq<Event>, channel: int) {
    exists e: Event :: after == before + [e] && Tells(e, channel)
  }

  /** What a worker's step does to its channel and to the log. */
  lemma WorkerLog(s: State, step: Step)
    requires Enabled(s, step) && Mover(step).Some? && At(s, Mover(step).value)
    ensures var now, m := s.workers[Mover(step).value], Moved(s, step);
      && (step.Dispatch? ==> !Busy(now) && m.worker == Taken(s.next) && m.next == s.next + 1 && m.job == s.job)
      && (!step.Dispatch? ==> m.next == s.next)
      && (Busy(m.worker) && !step.Dispatch? ==> Busy(now) && m.worker.channel == now.channel)
      && (m.job.events == s.job.events ||
          Noted(s.job.events, m.job.events) ||
          (Busy(now) && !Busy(m.worker) && Told(s.job.events, m.job.events, now.channel)))
  {
    hide Counts.Add;
    var now, m := s.workers[Mover(step).value], Moved(s, step);
    if step.Report? && Records(s.job, now.outcome) {
      assert Tells(m.job.events[|s.job.events|], now.channel);
    }
  }

  lemma OtherLog(s: State, step: Step)
    requires Enabled(s, step) && Mover(step).None?
    ensures var t := OtherApply(s, step);
      && t.workers == s.workers && t.next == s.next
      && (t.job.events == s.job.events || Noted(s.job.events, t.job.events))
  {
    hide RunFinished, Noted;
    if step.Finish? { EndNoted(s.job, s.verdict.err); }
  }

  lemma EndNoted(j: Job, err: RunError)
    ensures Noted(j.events, RunFinished(j, err).events)
  {
    hide FinalStatus;
    var log := RunFinished(j, err).events;
    assert log == j.events + [log[|j.events|]];
  }

  lemma LogOnceAppend(events: seq<Event>, e: Event, next: nat)
    requires LogOnce(events, next)
    requires e.kind.Progress? ==>
      0 <= e.kind.channel < next && forall k :: 0 <= k < |events| ==> !Tells(events[k], e.kind.channel)
    ensures LogOnce(events + [e], next)
  {
    var all := events + [e];
    forall i, j | 0 <= i < j < |all| && all[i].kind.Progress? && all[j].kind.Progress?
      ensures all[i].kind.channel != all[j].kind.channel
    {
      if j == |events| { assert !Tells(events[i], e.kind.channel); }
    }
  }

  lemma QuietEvent(workers: seq<Worker>, events: seq<Event>, e: Event, next: nat)
    requires HandsOnce(workers, events, next) && !e.kind.Progress?
    ensures HandsOnce(workers, events + [e], next)
  {
    hide Busy;
  }

  lemma StepOnce(s: State, step: Step)
    requires Once(s) && Enabled(s, step)
    ensures Once(Apply(s, step))
  {
    hide Enabled, Moved, OtherApply, LogOnce, HandsOnce;
    if Mover(step).Some? {
      assert At(s, Mover(step).value) by { WorkerThere(s, step); }
      WorkerOnce(s, step);
    } else {
      OtherLog(s, step);
      var t := OtherApply(s, step);
      if t.job.events != s.job.events {
        var e: Event :| t.job.events == s.job.events + [e] && !e.kind.Progress?;
        LogOnceAppend(s.job.events, e, s.next);
        QuietEvent(s.workers, s.job.events, e, s.next);
      }
    }
  }

  lemma WorkerOnce(s: State, step: Step)
    requires Once(s) && Enabled(s, step) && Mover(step).Some? && At(s, Mover(step).value)
    ensures Once(WorkerApply(s, step))
  {
    hide Enabled, Moved;
    WorkerLog(s, step);
    var w, m := Mover(step).value, Moved(s, step);
    var now, workers := s.workers[w], s.workers[w := m.worker];
    HandsMove(s.workers, s.job.events, s.next, w, m.worker, m.next);
    LogLonger(s.job.events, s.next, m.next);
    hide LogOnce, HandsOnce, Tells, Busy;
    if Noted(s.job.events, m.job.events) {
      var e: Event :| m.job.events == s.job.events + [e] && !e.kind.Progress?;
      LogOnceAppend(s.job.events, e, m.next);
      QuietEvent(workers, s.job.events, e, m.next);
    } else if m.job.events != s.job.events {
      var e: Event :| m.job.events == s.job.events + [e] && Tells(e, now.channel);
      ReportOnce(s.workers, s.job.events, s.next, w, m.worker, e);
    }
  }

  lemma LogLonger(events: seq<Event>, next: nat, later: nat)
    requires LogOnce(events, next) && next <= later
    ensures LogOnce(events, later)
  {
  }

  /** A worker that takes the next channel, keeps its own or gives it up holds none another one has. */
  lemma HandsMove(workers: seq<Worker>, events: seq<Event>, next: nat, w: nat, worker: Worker, later: nat)
    requires HandsOnce(workers, events, next) && LogOnce(events, next) && w < |workers|
    requires later == next || (later == next + 1 && worker == Taken(next))
    requires later == next && Busy(worker) ==> Busy(workers[w]) && worker.channel == workers[w].channel
    ensures HandsOnce(workers[w := worker], events, later)
  {
    var after := workers[w := worker];
    forall i | 0 <= i < |after| && Busy(after[i])
      ensures after[i].channel < later && forall k :: 0 <= k < |events| ==> !Tells(events[k], after[i].channel) {}
    forall i, j | 0 <= i < j < |after| && Busy(after[i]) && Busy(after[j])
      ensures after[i].channel != after[j].channel {}
  }

  lemma ReportOnce(workers: seq<Worker>, events: seq<Event>, next: nat, w: nat, worker: Worker, e: Event)
    requires HandsOnce(workers, events, next) && LogOnce(events, next) && w < |workers|
    requires Busy(workers[w]) && !Busy(worker) && Tells(e, workers[w].channel)
    ensures HandsOnce(workers[w := worker], events + [e], next) && LogOnce(events + [e], next)
  {
    LogOnceAppend(events, e, next);
    var after, all := workers[w := worker], events + [e];
    forall i | 0 <= i < |after| && Busy(after[i])
      ensures after[i].channel < next && forall k :: 0 <= k < |all| ==> !Tells(all[k], after[i].channel)
    {
      assert i != w;
      assert workers[i].channel != workers[w].channel;
    }
  }

  /** In every reachable state no channel was reported twice, none was reported that was not handed out, and no two
      workers hold one. */
  lemma {:induction false} ReportedOnce(total: nat, deleting: bool, cancellers: nat, steps: seq<Step>)
    requires Run(Init(total, deleting, cancellers), steps).Some?
    ensures Once(Run(Init(total, deleting, cancellers), steps).value)
    decreases |steps|
  {
    hide Once, Enabled, Apply, Init;
    var init := Init(total, deleting, cancellers);
    if steps == [] {
      assert Once(init) by { NothingHeld(total, deleting, cancellers); }
    } else {
      ReportedOnce(total, deleting, cancellers, steps[..|steps| - 1]);
      StepOnce(Run(init, steps[..|steps| - 1]).value, steps[|steps| - 1]);
    }
  }

  lemma NothingHeld(total: nat, deleting: bool, cancellers: nat)
    ensures Once(Init(total, deleting, cancellers))
  {
  }

  function Channels(events: seq<Event>): set<int> {
    set e | e in events && e.kind.Progress? :: e.kind.channel
  }

  predicate ChannelReported(events: seq<Event>, channel: int) {
    channel in Channels(events)
  }

  lemma SumStep(events: seq<Event>, e: Event)
    ensures Tally(events + [e]).Sum() == Tally(events).Sum() + if e.kind.Progress? then 1 else 0
    ensures Channels(events + [e]) == Channels(events) + if e.kind.Progress? then {e.kind.channel} else {}
  {
    hide Tally;
    TallyStep(events, e);
  }

  /** A log that reports each channel once reports as many channels as its counters add up to. */
  lemma {:induction false} ChannelsCounted(events: seq<Event>, next: nat)
    requires LogOnce(events, next)
    ensures |Channels(events)| == Tally(events).Sum()
    ensures forall c :: c in Channels(events) ==> 0 <= c < next
  {
    if events != [] {
      var front, e := events[..|events| - 1], events[|events| - 1];
      assert events == front + [e];
      assert LogOnce(front, next) by { FrontOnce(front, e, next); }
      hide LogOnce, Tally, Counts.Sum, Channels;
      ChannelsCounted(front, next);
      SumStep(front, e);
      if e.kind.Progress? { NotBefore(front, e, next); }
    }
  }

  lemma FrontOnce(front: seq<Event>, e: Event, next: nat)
    requires LogOnce(front + [e], next)
    ensures LogOnce(front, next)
  {
    assert forall i :: 0 <= i < |front| ==> front[i] == (front + [e])[i];
  }

  lemma NotBefore(front: seq<Event>, e: Event, next: nat)
    requires LogOnce(front + [e], next) && e.kind.Progress?
    ensures e.kind.channel !in Channels(front) && 0 <= e.kind.channel < next
  {
    var all := front + [e];
    assert all[|front|] == e;
    forall i | 0 <= i < |front| && front[i].kind.Progress? ensures front[i].kind.channel != e.kind.channel {
      assert all[i] == front[i] && all[|front|] == e;
    }
  }

  lemma {:induction false} Everyone(xs: set<int>, n: nat)
    requires (forall x :: x in xs ==> 0 <= x < n) && |xs| == n
    ensures forall c :: 0 <= c < n ==> c in xs
  {
    if n > 0 {
      if n - 1 in xs {
        Everyone(xs - {n - 1}, n - 1);
      } else {
        Fewer(xs, n - 1);
      }
    }
  }

  lemma {:induction false} Fewer(xs: set<int>, n: nat)
    requires forall x :: x in xs ==> 0 <= x < n
    ensures |xs| <= n
  {
    if n == 0 {
      assert forall x :: x !in xs;
      assert |xs| == 0;
    } else {
      Fewer(xs - {n - 1}, n - 1);
    }
  }

  /** In every reachable state each counter is the number of channels the log reports with that outcome, and a run
      that succeeded reported every channel, each exactly once. */
  lemma OutcomesCounted(s: State, total: nat, deleting: bool, cancellers: nat, steps: seq<Step>)
    requires Reached(s, total, deleting, cancellers, steps)
    ensures var c, log := s.job.counts, s.job.events;
      && c.healthy == Reported(log, Healthy) && c.refreshed == Reported(log, Refreshed)
      && c.disabled == Reported(log, Disabled) && c.deleted == Reported(log, Deleted)
      && c.skipped == Reported(log, Skipped) && c.failed == Reported(log, Faulty)
    ensures LogOnce(s.job.events, s.next) && s.next <= total
    ensures s.job.status == Succeeded ==>
      forall channel :: 0 <= channel < total ==> ChannelReported(s.job.events, channel)
  {
    hide Run, MutexInv, GateInv, LogOnce, Tally, Counts.Sum, Channels;
    ReachedInv(s, total, deleting, cancellers, steps);
    CleanupAccounting(s, total, deleting, cancellers, steps);
    TallyCounts(s.job.events);
    ReportedOnce(total, deleting, cancellers, steps);
    if s.job.status == Succeeded {
      CleanupCompletion(s, total, deleting, cancellers, steps);
      ChannelsCounted(s.job.events, s.next);
      Everyone(Channels(s.job.events), total);
    }
  }

  // ---- the mode of a run ---------------------------------------------------------------------

  predicate OutcomeInMode(deleting: bool, outcome: Outcome) {
    (outcome.Deleted? ==> deleting) && (outcome.Disabled? ==> !deleting)
  }

  ghost predicate InMode(s: State) {
    && (forall i :: 0 <= i < |s.workers| && s.workers[i].Reporting? ==> OutcomeInMode(s.deleting, s.workers[i].outcome))
    && (s.job.counts.deleted > 0 ==> s.deleting) && (s.job.counts.disabled > 0 ==> !s.deleting)
  }

  lemma MovedInMode(s: State, step: Step)
    requires Enabled(s, step) && Mover(step).Some? && At(s, Mover(step).value)
    requires var now := s.workers[Mover(step).value]; now.Reporting? ==> OutcomeInMode(s.deleting, now.outcome)
    ensures var m := Moved(s, step);
      && (m.worker.Reporting? ==> OutcomeInMode(s.deleting, m.worker.outcome))
      && (m.job.counts.deleted > s.job.counts.deleted ==> s.deleting)
      && (m.job.counts.disabled > s.job.counts.disabled ==> !s.deleting)
      && m.job.counts.deleted >= s.job.counts.deleted && m.job.counts.disabled >= s.job.counts.disabled
  {
  }

  lemma OtherKeepsCounts(s: State, step: Step)
    requires Enabled(s, step) && Mover(step).None?
    ensures OtherApply(s, step).workers == s.workers && OtherApply(s, step).deleting == s.deleting
    ensures OtherApply(s, step).job.counts == s.job.counts
  {
    hide RunFinished;
    if step.Finish? { EndKeepsCounts(s.job, s.verdict.err); }
  }

  lemma EndKeepsCounts(j: Job, err: RunError)
    ensures RunFinished(j, err).counts == j.counts
  {
    hide FinalStatus;
  }

  lemma StepInMode(s: State, step: Step)
    requires InMode(s) && Enabled(s, step)
    ensures InMode(Apply(s, step)) && Apply(s, step).deleting == s.deleting
  {
    hide Enabled, Moved, OtherApply, OutcomeInMode;
    if Mover(step).Some? {
      assert At(s, Mover(step).value) by { WorkerThere(s, step); }
      MovedInMode(s, step);
    } else {
      OtherKeepsCounts(s, step);
    }
  }

  lemma {:induction false} RunInMode(total: nat, deleting: bool, cancellers: nat, steps: seq<Step>)
    requires Run(Init(total, deleting, cancellers), steps).Some?
    ensures var s := Run(Init(total, deleting, cancellers), steps).value; InMode(s) && s.deleting == deleting
    decreases |steps|
  {
    hide InMode, Enabled, Apply, Init;
    var init := Init(total, deleting, cancellers);
    if steps == [] {
      assert InMode(init) && init.deleting == deleting by { NothingDone(total, deleting, cancellers); }
    } else {
      RunInMode(total, deleting, cancellers, steps[..|steps| - 1]);
      StepInMode(Run(init, steps[..|steps| - 1]).value, steps[|steps| - 1]);
    }
  }

  lemma NothingDone(total: nat, deleting: bool, cancellers: nat)
    ensures InMode(Init(total, deleting, cancellers)) && Init(total, deleting, cancellers).deleting == deleting
  {
  }

  /** A deleting run disables nothing, a disabling one deletes nothing. */
  lemma OneMode(s: State, total: nat, deleting: bool, cancellers: nat, steps: seq<Step>)
    requires Reached(s, total, deleting, cancellers, steps)
    ensures if deleting then s.job.counts.disabled == 0 else s.job.counts.deleted == 0
  {
    hide Run, Init;
    RunInMode(total, deleting, cancellers, steps);
  }

  // ---- the final status ----------------------------------------------------------------------

  /** What a run that ended for this reason shows. */
  predicate ShowsEnd(j: Job, err: RunError) {
    && (j.status == Cancelled <==> j.cancelRequested || err.ContextCancelled?)
    && (j.status == Failed <==> !j.cancelRequested && err.Broken?)
    && (j.status == Succeeded <==> !j.cancelRequested && err.NoError?)
    && j.error == if j.status == Failed then "finalize" else ""
  }

  ghost predicate EndsAs(s: State) {
    && (s.verdict.Ended? ==>
          && (s.verdict.err.ContextCancelled? ==> s.cancelled && s.job.total > 0)
          && (s.verdict.err.Broken? ==> s.finalizeFailed && s.verdict.err.message == "finalize")
          && (s.verdict.err.NoError? && s.job.total > 0 ==> !s.finalizeFailed))
    && (if s.Live() then s.job.error == "" else s.verdict.Ended? && ShowsEnd(s.job, s.verdict.err))
  }

  lemma WorkerEnds(s: State, step: Step)
    requires EndsAs(s) && EndInv(s) && Enabled(s, step) && Mover(step).Some?
    ensures EndsAs(WorkerApply(s, step))
  {
    hide Enabled, ShowsEnd;
    WorkerStep(s, step);
    assert s.verdict.Pending? && s.Live();
    assert Moved(s, step).job.error == s.job.error by { ErrorStays(s, step); }
    hide Moved;
  }

  lemma ErrorStays(s: State, step: Step)
    requires Enabled(s, step) && Mover(step).Some?
    ensures Moved(s, step).job.error == s.job.error
  {
    hide Counts.Add;
  }

  lemma OtherEnds(s: State, step: Step)
    requires EndsAs(s) && EndInv(s) && Enabled(s, step) && Mover(step).None?
    ensures EndsAs(OtherApply(s, step))
  {
    hide AllExited;
  }

  lemma {:induction false} RunEndsAs(total: nat, deleting: bool, cancellers: nat, steps: seq<Step>)
    requires Run(Init(total, deleting, cancellers), steps).Some?
    ensures EndsAs(Run(Init(total, deleting, cancellers), steps).value)
    decreases |steps|
  {
    hide EndsAs, Enabled, WorkerApply, OtherApply, Init, MutexInv, GateInv, CountInv, EndInv, LogInv;
    var init := Init(total, deleting, cancellers);
    if steps == [] {
      assert EndsAs(init) by { NothingEnded(total, deleting, cancellers); }
    } else {
      var front, step := steps[..|steps| - 1], steps[|steps| - 1];
      RunEndsAs(total, deleting, cancellers, front);
      var s := Run(init, front).value;
      ReachedInv(s, total, deleting, cancellers, front);
      if Mover(step).Some? { WorkerEnds(s, step); } else { OtherEnds(s, step); }
    }
  }

  lemma NothingEnded(total: nat, deleting: bool, cancellers: nat)
    ensures EndsAs(Init(total, deleting, cancellers))
  {
  }

  /** A run that is over was cancelled if a cancel was asked for or its context ended it, and failed or succeeded
      only without a cancel: failed with the finalisation that went wrong, succeeded without one. */
  lemma FinalStatusTells(s: State, total: nat, deleting: bool, cancellers: nat, steps: seq<Step>)
    requires Reached(s, total, deleting, cancellers, steps) && s.job.status != Running
    ensures s.job.cancelRequested ==> s.job.status == Cancelled
    ensures s.job.status == Cancelled ==> s.cancelled && s.job.error == ""
    ensures s.job.status == Failed ==> s.finalizeFailed && !s.job.cancelRequested && s.job.error == "finalize"
    ensures s.job.status == Succeeded ==>
      !s.job.cancelRequested && (total > 0 ==> !s.finalizeFailed) && s.job.error == ""
  {
    hide Run, Init, MutexInv, GateInv, EndInv, LogInv;
    RunEndsAs(total, deleting, cancellers, steps);
    ReachedInv(s, total, deleting, cancellers, steps);
    RunTotal(Init(total, deleting, cancellers), steps);
    assert Init(total, deleting, cancellers).job.total == total by { InitTotal(total, deleting, cancellers); }
  }

  lemma InitTotal(total: nat, deleting: bool, cancellers: nat)
    ensures Init(total, deleting, cancellers).job.total == total
  {
  }
}
