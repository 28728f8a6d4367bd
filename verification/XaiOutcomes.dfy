/** How an xAI login session ends, over whole runs: by the answer of its commit, by a failed exchange, by time or by
    a cancel, and by nothing else. */
module XaiOutcomes {
  import opened Names
  import opened Seqs
  import opened XaiSessions
  import opened XaiSessionsLaws

  function AnswerOf(m: Manager, h: nat): Option<Answer> {
    if h < |m.store| then m.store[h].answer else None
  }

  function FailureOf(m: Manager, h: nat): Option<string> {
    if h < |m.store| then m.store[h].failure else None
  }

  function ExchangesOf(m: Manager, h: nat): nat {
    if h < |m.store| then m.store[h].exchanges else 0
  }

  /** The bookkeeping of `n` is that of `m`; sessions `m` does not have were never called for. */
  ghost predicate SameCalls(m: Manager, n: Manager) {
    forall h: nat ::
      AnswerOf(n, h) == AnswerOf(m, h) && FailureOf(n, h) == FailureOf(m, h) && ExchangesOf(n, h) == ExchangesOf(m, h)
  }

  lemma SameCallsChain(m: Manager, n: Manager, p: Manager)
    requires SameCalls(m, n) && SameCalls(n, p)
    ensures SameCalls(m, p)
  {
  }

  lemma PrunedCalls(m: Manager, now: int)
    ensures SameCalls(m, Pruned(m, now))
  {
    hide Overdue, Registered, Lapsed, Forgotten;
  }

  lemma FinishCalls(m: Manager, h: nat, status: Status, error: string, channelId: int, now: int)
    requires h < |m.store|
    ensures SameCalls(m, Finish(m, h, status, error, channelId, now))
  {
    hide Inactive;
  }

  lemma CancelActiveCalls(m: Manager, admin: string, now: int)
    ensures SameCalls(m, CancelActive(m, admin, now))
  {
    hide Finish;
    var h := ActiveHandle(m, admin);
    if h.Some? { FinishCalls(m, h.value, Cancelled, "", 0, now); }
  }

  lemma StartCalls(m: Manager, adminInput: string, state: string, verifier: string, now: int)
    ensures SameCalls(m, StartStep(m, adminInput, state, verifier, now))
  {
    hide Pruned, CancelActive, TrimSpace;
    var admin := TrimSpace(adminInput);
    var p := CancelActive(Pruned(m, now), admin, now);
    PrunedCalls(m, now);
    CancelActiveCalls(Pruned(m, now), admin, now);
    SameCallsChain(m, Pruned(m, now), p);
    var n := StartStep(m, adminInput, state, verifier, now);
    if admin != "" && !m.closed {
      assert n.store[|p.store|] == NewSession(state, admin, verifier, now);
      assert forall h :: 0 <= h < |p.store| ==> n.store[h] == p.store[h];
      assert SameCalls(p, n);
      SameCallsChain(m, p, n);
    }
  }

  lemma OtherCalls(m: Manager, step: Step)
    requires Enabled(m, step) && !HandlerStep(step)
    ensures SameCalls(m, Do(m, step))
  {
    hide Pruned, CancelActive, StartStep, TrimSpace, Registered, Finish;
    match step
    case Start(adminInput, state, verifier, now) => StartCalls(m, adminInput, state, verifier, now);
    case Callback(admin, input, now) => PrunedCalls(m, now);
    case Prune(now) => PrunedCalls(m, now);
    case CancelByAdmin(admin, now) => CancelActiveCalls(m, TrimSpace(admin), now);
    case Cancel(admin, state, now) =>
      var h := CancelTarget(m, admin, state);
      if h.Some? { FinishCalls(m, h.value, Cancelled, "", 0, now); }
    case Shutdown =>
    case Close =>
    case CancelContext(_) =>
  }

  /** Only the two outgoing calls write the bookkeeping, each what it was answered. */
  lemma StepCalls(m: Manager, step: Step, h: nat)
    requires Enabled(m, step)
    ensures AnswerOf(Do(m, step), h) ==
            if step.CallCommit? && step.h == h then Some(step.answer) else AnswerOf(m, h)
    ensures FailureOf(Do(m, step), h) ==
            if step.Exchange? && step.h == h then step.failure else FailureOf(m, h)
    ensures ExchangesOf(Do(m, step), h) == ExchangesOf(m, h) + if step.Exchange? && step.h == h then 1 else 0
  {
    if HandlerStep(step) {
      HandlerStepOnly(m, step);
      HandlerCalls(m, step);
    } else {
      hide Do, Enabled;
      OtherCalls(m, step);
    }
  }

  lemma HandlerCalls(m: Manager, step: Step)
    requires Enabled(m, step) && HandlerStep(step) && step.h < |m.store| == |Do(m, step).store|
    ensures var s, t := m.store[step.h], Do(m, step).store[step.h];
      && t.answer == (if step.CallCommit? then Some(step.answer) else s.answer)
      && t.failure == (if step.Exchange? then step.failure else s.failure)
      && t.exchanges == s.exchanges + if step.Exchange? then 1 else 0
  {
    hide Inactive;
  }

  /** Some step of the run is the commit of session `h`, answered so. */
  ghost predicate CommitAnswered(steps: seq<Step>, h: nat, answer: Answer) {
    CallCommit(h, answer) in steps
  }

  /** Some step of the run is the exchange of session `h`, failing so. */
  ghost predicate ExchangeFailedWith(steps: seq<Step>, h: nat, error: string) {
    Exchange(h, Some(error)) in steps
  }

  /** The bookkeeping tells the calls of the run. */
  lemma {:induction false} CallsTold(steps: seq<Step>, h: nat)
    requires Run(EMPTY, steps).Some?
    ensures forall a :: CommitAnswered(steps, h, a) <==> AnswerOf(Run(EMPTY, steps).value, h) == Some(a)
    ensures forall e :: ExchangeFailedWith(steps, h, e) <==> FailureOf(Run(EMPTY, steps).value, h) == Some(e)
    ensures forall f :: Exchange(h, f) in steps ==> ExchangesOf(Run(EMPTY, steps).value, h) >= 1
    decreases |steps|
  {
    hide Do, Enabled, Inv;
    if steps != [] {
      var front, step := steps[..|steps| - 1], steps[|steps| - 1];
      assert steps == front + [step];
      CallsTold(front, h);
      var before, after := Run(EMPTY, front).value, Run(EMPTY, steps).value;
      StepCalls(before, step, h);
      EmptyInv();
      RunInv(EMPTY, front);
      RunInv(EMPTY, steps);
      CallsOnce(before, step);
      forall a ensures CommitAnswered(steps, h, a) <==> AnswerOf(after, h) == Some(a) {}
      forall e ensures ExchangeFailedWith(steps, h, e) <==> FailureOf(after, h) == Some(e) {}
    }
  }

  /** Before either call its answer is not there. */
  lemma CallsOnce(m: Manager, step: Step)
    requires Inv(m) && Enabled(m, step)
    ensures step.CallCommit? ==> AnswerOf(m, step.h) == None
    ensures step.Exchange? ==> FailureOf(m, step.h) == None && ExchangesOf(m, step.h) == 0
  {
    hide Tables, Active;
    if step.CallCommit? || step.Exchange? { assert Sound(m.store[step.h]); }
  }

  /** In every run a session is complete exactly if it returned from a commit that created a channel, and carries
      that channel; from a refused commit it returned as failed with the refusal; and from a failed exchange as
      failed with its error, unless it was cancelled. */
  lemma EndsByAnswer(steps: seq<Step>, h: nat)
    requires Run(EMPTY, steps).Some? && h < |Run(EMPTY, steps).value.store|
    ensures var s := Run(EMPTY, steps).value.store[h];
      && (s.status == Complete <==> s.handler.Returned? && exists id :: CommitAnswered(steps, h, Created(id)))
      && (s.status == Complete ==> CommitAnswered(steps, h, Created(s.channelId)) && s.error == "")
      && (s.handler.Returned? && (exists e :: CommitAnswered(steps, h, Refused(e))) ==>
            s.status == Failed && CommitAnswered(steps, h, Refused(s.error)) && s.channelId == 0)
      && (s.handler.Returned? && (exists e :: ExchangeFailedWith(steps, h, e)) ==>
            s.status == Cancelled || (s.status == Failed && ExchangeFailedWith(steps, h, s.error) && s.channelId == 0))
  {
    hide Run, Tables, Active, CommitAnswered, ExchangeFailedWith;
    EmptyInv();
    RunInv(EMPTY, steps);
    CallsTold(steps, h);
    var s := Run(EMPTY, steps).value.store[h];
    assert Sound(s);
    if s.handler.Returned? && s.answer.Some? { assert Terminal(s); }
  }

  /** A failed session has the error of its commit, of its exchange, or of time; only a complete one has a channel,
      only a failed one an error. */
  lemma FailedBySomething(steps: seq<Step>, h: nat)
    requires Run(EMPTY, steps).Some? && h < |Run(EMPTY, steps).value.store|
    ensures var s := Run(EMPTY, steps).value.store[h];
      && (s.status == Failed ==>
            || CommitAnswered(steps, h, Refused(s.error))
            || ExchangeFailedWith(steps, h, s.error)
            || s.error == EXPIRED)
      && (s.status != Failed ==> s.error == "") && (s.status != Complete ==> s.channelId == 0)
  {
    hide Run, Tables, Active, CommitAnswered, ExchangeFailedWith;
    EmptyInv();
    RunInv(EMPTY, steps);
    CallsTold(steps, h);
    assert Sound(Run(EMPTY, steps).value.store[h]);
  }
}
