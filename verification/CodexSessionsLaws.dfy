/** What every run of the browser-login machine keeps. */
module CodexSessionsLaws {
  import opened Names
  import opened Seqs
  import opened CodexSessions

  function Run(m: Manager, steps: seq<Step>): Option<Manager>
    decreases |steps|
  {
    if steps == [] then Some(m)
    else
      var before, step := Run(m, steps[..|steps| - 1]), steps[|steps| - 1];
      if before.Some? && Enabled(before.value, step) then Some(Do(before.value, step)) else None
  }

  lemma EmptyInv()
    ensures Inv(EMPTY)
  {
  }

  lemma {:induction false} RunInv(m: Manager, steps: seq<Step>)
    requires Inv(m) && Run(m, steps).Some?
    ensures Inv(Run(m, steps).value)
    decreases |steps|
  {
    hide Inv, Enabled, Do;
    if steps != [] {
      RunInv(m, steps[..|steps| - 1]);
      StepKeeps(Run(m, steps[..|steps| - 1]).value, steps[|steps| - 1]);
    }
  }

  lemma Reached(steps: seq<Step>, h: nat)
    requires Run(EMPTY, steps).Some? && h < |Run(EMPTY, steps).value.store|
    ensures Inv(Run(EMPTY, steps).value) && Sound(Run(EMPTY, steps).value.store[h])
  {
    hide Run, Tables, Active, Sound;
    EmptyInv();
    RunInv(EMPTY, steps);
  }

  // ---- forced cancels ------------------------------------------------------------------------

  lemma CancelForces(m: Manager, input: string, force: bool, now: int, h: nat)
    requires h < |m.store|
    ensures h < |CancelStep(m, input, force, now).store|
    ensures CancelStep(m, input, force, now).store[h].forced ==> m.store[h].forced || force
  {
    hide TrimSpace;
  }

  lemma StepForces(m: Manager, step: Step, h: nat)
    requires Enabled(m, step) && !step.CloseCancels?
    ensures h < |Do(m, step).store| && Do(m, step).store[h].forced ==> h < |m.store| && m.store[h].forced
  {
    hide CancelStep, Pruned, Find, ExchangedRoutine;
    if h < |m.store| {
      match step
      case Cancel(input, now) => CancelForces(m, input, false, now, h);
      case StartCancels(now, _) => CancelForces(m, StateOf(m, m.starter.seen), false, now, h);
      case StartCreates(now, _, _) => PrunedStore(m, now);
      case Prune(now) => PrunedStore(m, now);
      case _ =>
    } else if step.StartCreates? {
      PrunedStore(m, step.now);
    } else {
      SameCount(m, step);
    }
  }

  lemma SameCount(m: Manager, step: Step)
    requires Enabled(m, step) && !step.StartCreates?
    ensures |Do(m, step).store| == |m.store|
  {
    hide TrimSpace;
  }

  lemma {:induction false} ForcedOnlyByClose(steps: seq<Step>, h: nat)
    requires Run(EMPTY, steps).Some? && h < |Run(EMPTY, steps).value.store|
    requires forall i :: 0 <= i < |steps| ==> !steps[i].CloseCancels?
    ensures !Run(EMPTY, steps).value.store[h].forced
    decreases |steps|
  {
    hide Enabled, Do;
    if steps != [] {
      var front := steps[..|steps| - 1];
      var before := Run(EMPTY, front).value;
      StepForces(before, steps[|steps| - 1], h);
      if h < |before.store| { ForcedOnlyByClose(front, h); }
    }
  }

  /** Without a forced shutdown, a login that was cancelled never had its commit called and never will:
      cancelled is final. */
  lemma CancelMeansNoCommit(steps: seq<Step>, h: nat)
    requires Run(EMPTY, steps).Some? && h < |Run(EMPTY, steps).value.store|
    requires forall i :: 0 <= i < |steps| ==> !steps[i].CloseCancels?
    requires Run(EMPTY, steps).value.store[h].status == Cancelled
    ensures Run(EMPTY, steps).value.store[h].commits == 0
    ensures forall step :: Enabled(Run(EMPTY, steps).value, step) && step.Commit? ==> step.h != h
    ensures forall step :: Enabled(Run(EMPTY, steps).value, step) && h < |Do(Run(EMPTY, steps).value, step).store| ==>
              Do(Run(EMPTY, steps).value, step).store[h].status == Cancelled
  {
    hide Run, Do, Tables, Active;
    Reached(steps, h);
    ForcedOnlyByClose(steps, h);
    var m := Run(EMPTY, steps).value;
    forall step | Enabled(m, step) && h < |Do(m, step).store| ensures Do(m, step).store[h].status == Cancelled {
      StaysCancelled(m, step, h);
    }
  }

  lemma StaysCancelled(m: Manager, step: Step, h: nat)
    requires Enabled(m, step) && h < |m.store| && Sound(m.store[h]) && m.store[h].status == Cancelled
    requires !m.store[h].forced
    ensures h < |Do(m, step).store| && Do(m, step).store[h].status == Cancelled
  {
    hide TrimSpace, Pruned, CancelStep, ExchangedRoutine;
    match step
    case Cancel(input, now) => CancelKeepsCancelled(m, input, false, now, h);
    case StartCancels(now, _) => CancelKeepsCancelled(m, StateOf(m, m.starter.seen), false, now, h);
    case CloseCancels(now) => CancelKeepsCancelled(m, StateOf(m, m.starter.seen), true, now, h);
    case StartCreates(now, _, _) => PrunedStore(m, now);
    case Prune(now) => PrunedStore(m, now);
    case _ =>
  }

  lemma CancelKeepsCancelled(m: Manager, input: string, force: bool, now: int, h: nat)
    requires h < |m.store| && m.store[h].status == Cancelled
    ensures h < |CancelStep(m, input, force, now).store| &&
        CancelStep(m, input, force, now).store[h].status == Cancelled
  {
    hide TrimSpace;
  }

  // ---- callbacks -----------------------------------------------------------------------------

  /** At most one callback is accepted per login, and the send into its buffer always finds room. */
  lemma OneCallback(steps: seq<Step>, h: nat)
    requires Run(EMPTY, steps).Some? && h < |Run(EMPTY, steps).value.store|
    ensures Run(EMPTY, steps).value.store[h].accepted <= 1
    ensures Run(EMPTY, steps).value.store[h].refusedSends == 0
    ensures Run(EMPTY, steps).value.store[h].commits <= 1
    ensures Run(EMPTY, steps).value.store[h].status == Complete ==> Run(EMPTY, steps).value.store[h].commits == 1
  {
    hide Run, Inv;
    Reached(steps, h);
  }

  // ---- the active login ----------------------------------------------------------------------

  /** The active login is registered, unfinished, and pending or committing; any unfinished login is it. */
  lemma ActiveLogin(steps: seq<Step>, h: nat)
    requires Run(EMPTY, steps).Some? && h < |Run(EMPTY, steps).value.store|
    ensures var m := Run(EMPTY, steps).value;
      && (m.active == Some(h) ==>
            Registered(m, h) && m.store[h].finishedAt.None? && m.store[h].status in {Pending, Committing})
      && (m.store[h].status in {Pending, Committing} ==> m.active == Some(h))
  {
    hide Run, Tables;
    Reached(steps, h);
  }

  /** A login whose commit was called leaves that state only by its own end or by a forced shutdown; no
      start takes its place. */
  lemma CommittingNotDisplaced(steps: seq<Step>, h: nat, step: Step)
    requires Run(EMPTY, steps).Some? && h < |Run(EMPTY, steps).value.store|
    requires Run(EMPTY, steps).value.store[h].status == Committing
    requires Enabled(Run(EMPTY, steps).value, step) && !step.CloseCancels? && !(step.End? && step.h == h)
    ensures var n := Do(Run(EMPTY, steps).value, step);
      && n.active == Some(h) && |n.store| == |Run(EMPTY, steps).value.store| && n.store[h].status == Committing
  {
    hide Run, Enabled, Do;
    Reached(steps, h);
    StaysCommitting(Run(EMPTY, steps).value, h, step);
  }

  lemma StaysCommitting(m: Manager, h: nat, step: Step)
    requires Inv(m) && h < |m.store| && m.store[h].status == Committing && Sound(m.store[h])
    requires Enabled(m, step) && !step.CloseCancels? && !(step.End? && step.h == h)
    ensures Do(m, step).active == Some(h) && |Do(m, step).store| == |m.store| &&
        Do(m, step).store[h].status == Committing
  {
    hide TrimSpace, Pruned, CancelStep, ExchangedRoutine, Tables, AllSound;
    assert m.active == Some(h);
    match step
    case Cancel(input, now) => CancelSparesCommitting(m, input, now, h);
    case StartCancels(now, _) => CancelSparesCommitting(m, StateOf(m, m.starter.seen), now, h);
    case StartCreates(now, _, _) => PrunedStore(m, now);
    case Prune(now) => PrunedStore(m, now);
    case _ =>
  }

  lemma CancelSparesCommitting(m: Manager, input: string, now: int, h: nat)
    requires h < |m.store| && m.store[h].status == Committing && m.active == Some(h)
    ensures var n := CancelStep(m, input, false, now);
      n.active == Some(h) && |n.store| == |m.store| && n.store[h].status == Committing
  {
    hide TrimSpace, Kept;
  }

  // ---- the forced shutdown -------------------------------------------------------------------

  /** The commit was called, or is about to be. */
  predicate CommitDue(s: Session) {
    s.commits == 1 || s.routine.CommitCalled?
  }

  /** In every run, whatever is forced: a cancelled login's commit was called, or is due, exactly when a
      forced shutdown met the login after its commit was entered. */
  lemma CancelledCommitExactly(steps: seq<Step>, h: nat)
    requires Run(EMPTY, steps).Some? && h < |Run(EMPTY, steps).value.store|
    requires Run(EMPTY, steps).value.store[h].status == Cancelled
    ensures CommitDue(Run(EMPTY, steps).value.store[h]) <==> Run(EMPTY, steps).value.store[h].forced
  {
    hide Run, Inv;
    Reached(steps, h);
  }

  /** The shutdown finds the login it saw under its state. */
  predicate Closes(m: Manager, h: nat, now: int) {
    m.starter == Closing(Some(h)) && Registered(m, h) && Kept(m, m.store[h].state, now)
  }

  /** A forced shutdown cancels the login it finds, and leaves it cancelled with its commit called or due
      exactly when the login was committing, complete, or had failed in its commit. */
  lemma ForcedCancelExactly(steps: seq<Step>, h: nat, now: int)
    requires Run(EMPTY, steps).Some? && Closes(Run(EMPTY, steps).value, h, now)
    requires Run(EMPTY, steps).value.store[h].status != Cancelled
    ensures var m := Run(EMPTY, steps).value;
      && Enabled(m, CloseCancels(now)) && h < |Do(m, CloseCancels(now)).store|
      && Do(m, CloseCancels(now)).store[h].status == Cancelled
      && (CommitDue(Do(m, CloseCancels(now)).store[h]) <==> PastCommit(m.store[h]))
  {
    hide Run;
    Reached(steps, h);
    hide Inv;
    ForcedCancel(Run(EMPTY, steps).value, h, now);
  }

  lemma ForcedCancel(m: Manager, h: nat, now: int)
    requires Closes(m, h, now) && Sound(m.store[h]) && m.store[h].status != Cancelled
    ensures Enabled(m, CloseCancels(now)) && h < |Do(m, CloseCancels(now)).store|
    ensures var t := Do(m, CloseCancels(now)).store[h];
      t.status == Cancelled && (CommitDue(t) <==> PastCommit(m.store[h]))
  {
    hide TrimSpace, Trimmed, Kept;
    var state := m.store[h].state;
    assert TrimSpace(state) == state;
    assert Find(Pruned(m, now), state) == Some(h);
  }

  const CODE := Result("code", "s", "")
  const LOGIN: seq<Step> := [StartReads, StartCreates(0, "s", true), Deliver(0, CODE)]
  const EXCHANGE: seq<Step> := [Receive(0), Exchange(0, ""), Decide(0)]
  const CLOSE: seq<Step> := [CloseReads, CloseCancels(1), Commit(0, Created(7)), End(0, 2)]

  const DELIVERED := NewSession("s").(callbackReceived := true, buffer := Some(CODE), callback := Some(CODE),
                                         accepted := 1)
  const COMMITTING := DELIVERED.(buffer := None, status := Committing, routine := CommitCalled)

  function One(s: Session, active: Option<nat>, starter: Starter): Manager {
    Manager([s], map["s" := 0], active, starter)
  }

  lemma WitnessLogin()
    ensures Run(EMPTY, LOGIN) == Some(One(DELIVERED, Some(0), Idle))
  {
    hide Run, TrimSpace;
    RunNothing(EMPTY);
    var reading, created := EMPTY.(starter := Starting(None)), One(NewSession("s"), Some(0), Idle);
    var r := Extend([], EMPTY, StartReads, reading);
    assert Pruned(reading, 0).sessions == map[];
    r := Extend(r, reading, StartCreates(0, "s", true), created);
    r := Extend(r, created, Deliver(0, CODE), One(DELIVERED, Some(0), Idle));
    assert r == LOGIN;
  }

  lemma WitnessExchange()
    ensures Run(EMPTY, LOGIN + EXCHANGE) == Some(One(COMMITTING, Some(0), Idle))
  {
    hide Run, TrimSpace, Trimmed;
    WitnessLogin();
    var held := DELIVERED.(buffer := None, routine := Holding(CODE));
    var exchanged := held.(routine := Exchanged);
    var r := Extend(LOGIN, One(DELIVERED, Some(0), Idle), Receive(0), One(held, Some(0), Idle));
    r := Extend(r, One(held, Some(0), Idle), Exchange(0, ""), One(exchanged, Some(0), Idle));
    r := Extend(r, One(exchanged, Some(0), Idle), Decide(0), One(COMMITTING, Some(0), Idle));
    assert r == LOGIN + EXCHANGE;
  }

  const CANCELLED := COMMITTING.(status := Cancelled, finishedAt := Some(1), forced := true)
  const COMMITTED := CANCELLED.(routine := Ending("", 7), commits := 1, answer := Some(Created(7)))

  lemma WitnessForce(m: Manager)
    requires m == One(COMMITTING, Some(0), Closing(Some(0)))
    ensures CancelStep(m, "s", true, 1) == One(CANCELLED, None, Closing(Some(0)))
  {
    hide TrimSpace, Trimmed;
    assert TrimSpace("s") == "s" by { OneLetter(); }
    assert Pruned(m, 1) == m;
    assert Find(m, "s") == Some(0);
    assert CancelAnswerOf(m, "s", true, 1) == Stopped;
    assert m.store[0 := CANCELLED] == [CANCELLED];
  }

  lemma OneLetter()
    ensures TrimSpace("s") == "s"
  {
  }

  lemma WitnessEnd(m: Manager)
    requires m == One(CANCELLED, None, Idle)
    ensures Enabled(m, Commit(0, Created(7))) && Do(m, Commit(0, Created(7))) == One(COMMITTED, None, Idle)
    ensures var n, ended := One(COMMITTED, None, Idle), COMMITTED.(routine := Done, finishedAt := Some(2));
      Enabled(n, End(0, 2)) && Do(n, End(0, 2)) == One(ended, None, Idle)
  {
    hide CancelStep, StartCancelsStep, StartCreatesStep, CloseCancelsStep, Pruned, DeliverStep, DecideStep,
        ExchangedRoutine;
    assert m.store[0 := COMMITTED] == [COMMITTED];
  }

  /** A forced shutdown may mark a login cancelled although its channel is created. */
  lemma ShutdownWitness()
    ensures Run(EMPTY, LOGIN + EXCHANGE + CLOSE).Some?
    ensures var m := Run(EMPTY, LOGIN + EXCHANGE + CLOSE).value;
      |m.store| == 1 && m.store[0].status == Cancelled && m.store[0].commits == 1
  {
    hide Run, CancelStep, StartCreatesStep, StartCancelsStep, DeliverStep, DecideStep, EndStep, Pruned;
    WitnessExchange();
    var closing := One(COMMITTING, Some(0), Closing(Some(0)));
    var r := Extend(LOGIN + EXCHANGE, One(COMMITTING, Some(0), Idle), CloseReads, closing);
    WitnessForce(closing);
    r := Extend(r, closing, CloseCancels(1), One(CANCELLED, None, Idle));
    WitnessEnd(One(CANCELLED, None, Idle));
    hide Do, Enabled;
    r := Extend(r, One(CANCELLED, None, Idle), Commit(0, Created(7)), One(COMMITTED, None, Idle));
    r := Extend(r, One(COMMITTED, None, Idle), End(0, 2),
                One(COMMITTED.(routine := Done, finishedAt := Some(2)), None, Idle));
    assert r == LOGIN + EXCHANGE + CLOSE;
  }

  lemma RunNothing(m: Manager)
    ensures Run(m, []) == Some(m)
  {
  }

  lemma Extend(steps: seq<Step>, m: Manager, step: Step, n: Manager) returns (r: seq<Step>)
    requires Run(EMPTY, steps) == Some(m) && Enabled(m, step) && Do(m, step) == n
    ensures r == steps + [step] && Run(EMPTY, r) == Some(n)
  {
    hide Enabled, Do;
    r := steps + [step];
    assert r[..|r| - 1] == steps;
  }
}
