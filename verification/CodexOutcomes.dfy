/** How a browser login ends, over whole runs: only by its own callback can it come to a commit, and the commit's
    answer, or the first error before it, is what its status tells. */
module CodexOutcomes {
  import opened Names
  import opened Seqs
  import opened CodexSessions
  import opened CodexSessionsLaws

  function AnswerOf(m: Manager, h: nat): Option<Answer> {
    if h < |m.store| then m.store[h].answer else None
  }

  function CallbackOf(m: Manager, h: nat): Option<Result> {
    if h < |m.store| then m.store[h].callback else None
  }

  /** Nothing was answered, and no callback taken, between the two. */
  ghost predicate SameCalls(m: Manager, n: Manager) {
    forall h: nat :: AnswerOf(n, h) == AnswerOf(m, h) && CallbackOf(n, h) == CallbackOf(m, h)
  }

  lemma CancelCalls(m: Manager, input: string, force: bool, now: int)
    ensures SameCalls(m, CancelStep(m, input, force, now))
  {
    hide TrimSpace, Kept;
  }

  lemma CreateCalls(m: Manager, now: int, state: string, prepared: bool)
    ensures SameCalls(m, StartCreatesStep(m, now, state, prepared))
  {
    PrunedStore(m, now);
    hide Pruned;
  }

  lemma RoutineCalls(m: Manager, step: Step)
    requires Enabled(m, step)
    requires step.Receive? || step.SeesCancel? || step.TimesOut? || step.Exchange? || step.Decide? || step.End? ||
             step.CancelContext?
    ensures SameCalls(m, Do(m, step))
  {
    hide ExchangedRoutine, Enabled;
    assert step.h < |m.store| by { StepThere(m, step); }
  }

  lemma StepThere(m: Manager, step: Step)
    requires Enabled(m, step)
    requires step.Receive? || step.SeesCancel? || step.TimesOut? || step.Exchange? || step.Decide? || step.End? ||
             step.CancelContext?
    ensures step.h < |m.store|
  {
  }

  /** The answer is the commit's, and the callback one that was delivered; no other step writes them. */
  lemma StepCalls(m: Manager, step: Step, h: nat)
    requires Enabled(m, step)
    ensures AnswerOf(Do(m, step), h) == if step.Commit? && step.h == h then Some(step.answer) else AnswerOf(m, h)
    ensures CallbackOf(Do(m, step), h) == CallbackOf(m, h) ||
            (step.Deliver? && step.h == h && CallbackOf(Do(m, step), h) == Some(step.result))
  {
    hide CancelStep, StartCreatesStep, ExchangedRoutine, Kept;
    match step
    case StartReads =>
    case CloseReads =>
    case Prune(_) =>
    case Cancel(input, now) => CancelCalls(m, input, false, now);
    case StartCancels(now, _) => CancelCalls(m, StateOf(m, m.starter.seen), false, now);
    case CloseCancels(now) => CancelCalls(m, StateOf(m, m.starter.seen), true, now);
    case StartCreates(now, state, prepared) => CreateCalls(m, now, state, prepared);
    case Deliver(_, _) =>
    case Commit(_, _) =>
    case _ => RoutineCalls(m, step);
  }

  /** The bookkeeping tells the calls of the run. */
  lemma {:induction false} CallsTold(steps: seq<Step>, h: nat)
    requires Run(EMPTY, steps).Some?
    ensures forall a :: Commit(h, a) in steps <==> AnswerOf(Run(EMPTY, steps).value, h) == Some(a)
    ensures forall r :: CallbackOf(Run(EMPTY, steps).value, h) == Some(r) ==> Deliver(h, r) in steps
    decreases |steps|
  {
    hide Do, Enabled, Inv;
    if steps != [] {
      var front, step := steps[..|steps| - 1], steps[|steps| - 1];
      assert steps == front + [step];
      CallsTold(front, h);
      StepCalls(Run(EMPTY, front).value, step, h);
      EmptyInv();
      RunInv(EMPTY, front);
      if step.Commit? { AnsweredOnce(Run(EMPTY, front).value, step); }
    }
  }

  lemma AnsweredOnce(m: Manager, step: Step)
    requires Inv(m) && Enabled(m, step) && step.Commit?
    ensures AnswerOf(m, step.h) == None
  {
    hide Tables, Active;
    assert Sound(m.store[step.h]);
  }

  /** In every run a login comes to its commit only by a callback delivered to it, with its own state and without
      an error. */
  lemma OnlyOwnCallbackCommits(steps: seq<Step>, h: nat)
    requires Run(EMPTY, steps).Some? && h < |Run(EMPTY, steps).value.store|
    requires var s := Run(EMPTY, steps).value.store[h]; s.commits > 0 || s.routine.CommitCalled?
    ensures exists r: Result ::
      Deliver(h, r) in steps && r.error == "" && r.state == Run(EMPTY, steps).value.store[h].state
  {
    hide Run, Inv;
    Reached(steps, h);
    CallsTold(steps, h);
    var s := Run(EMPTY, steps).value.store[h];
    assert CallbackOf(Run(EMPTY, steps).value, h) == s.callback;
    assert Deliver(h, s.callback.value) in steps;
  }

  /** In every run a complete login carries the channel its commit created (or none, had the commit failed without
      a text); a login whose routine is done after a commit that was refused with a text is failed with it, unless a
      shutdown forced it; and a failed one has the error of its commit or of what came before it. */
  lemma EndsByAnswer(steps: seq<Step>, h: nat)
    requires Run(EMPTY, steps).Some? && h < |Run(EMPTY, steps).value.store|
    ensures var s := Run(EMPTY, steps).value.store[h];
      && (s.status == Complete ==>
            s.error == "" &&
            (Commit(h, Created(s.channelId)) in steps || (Commit(h, Refused("")) in steps && s.channelId == 0)))
      && (s.routine.Done? && (exists id :: Commit(h, Created(id)) in steps) ==> s.status == Complete || s.forced)
      && (s.routine.Done? && (exists e :: e != "" && Commit(h, Refused(e)) in steps) ==>
            s.forced || (s.status == Failed && Commit(h, Refused(s.error)) in steps))
      && (s.status == Failed ==>
            s.error != "" && s.channelId == 0 && (Commit(h, Refused(s.error)) in steps || s.failure == Some(s.error)))
      && (s.status != Failed ==> s.error == "")
  {
    hide Run, Inv;
    Reached(steps, h);
    CallsTold(steps, h);
    var m := Run(EMPTY, steps).value;
    assert AnswerOf(m, h) == m.store[h].answer;
  }
}
