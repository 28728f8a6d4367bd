/** Browser logins with a local callback listener (Codex, Antigravity): one active login, one callback,
    one completion routine per login. Starting and closing hold a lock of their own over several
    critical sections. */
module CodexSessions {
  import opened Names
  import opened Seqs

  const STATUS_TTL := 600

  datatype Status = Pending | Committing | Complete | Failed | Cancelled

  /** What a callback, the listener, a cancel or the timer hands to the completion routine. */
  datatype Result = Result(code: string, state: string, error: string)

  /** The completion routine: waiting, holding a result, after the exchange, around the commit, done. */
  datatype Routine =
    Waiting | Holding(result: Result) | Exchanged | CommitCalled | Ending(error: string, channelId: int) | Done

  /** What a commit answers. */
  datatype Answer = Created(channelId: int) | Refused(error: string)

  /** A login. The last fields only record what happened: callbacks accepted, sends that found the
      buffer full, commits called, a forced cancel that came after the commit was entered, the callback
      accepted, the error the routine gave up with, and the commit's answer. */
  datatype Session = Session(
    state: string, status: Status, error: string, channelId: int, finishedAt: Option<int>,
    callbackReceived: bool, buffer: Option<Result>, contextDone: bool, routine: Routine,
    accepted: nat, refusedSends: nat, commits: nat, forced: bool,
    callback: Option<Result>, failure: Option<string>, answer: Option<Answer>)

  /** Who holds the start lock, and what it read. */
  datatype Starter = Idle | Starting(seen: Option<nat>) | Replaced | Closing(seen: Option<nat>)

  datatype Manager = Manager(store: seq<Session>, sessions: map<string, nat>, active: Option<nat>, starter: Starter)

  const EMPTY := Manager([], map[], None, Idle)

  function NewSession(state: string): Session {
    Session(state, Pending, "", 0, None, false, None, false, Waiting, 0, 0, 0, false, None, None, None)
  }

  // ---- critical sections ---------------------------------------------------------------------

  function Put(m: Manager, h: nat, s: Session): Manager
    requires h < |m.store|
  {
    m.(store := m.store[h := s])
  }

  function Deactivated(m: Manager, h: nat): Manager {
    if m.active == Some(h) then m.(active := None) else m
  }

  predicate Stale(s: Session, now: int) {
    s.finishedAt.Some? && now - s.finishedAt.value > STATUS_TTL
  }

  predicate Kept(m: Manager, state: string, now: int)
    requires state in m.sessions
  {
    m.sessions[state] < |m.store| ==> !Stale(m.store[m.sessions[state]], now)
  }

  function Pruned(m: Manager, now: int): Manager {
    m.(sessions := map state | state in m.sessions && Kept(m, state, now) :: m.sessions[state])
  }

  function Find(m: Manager, input: string): Option<nat> {
    var state := TrimSpace(input);
    if state in m.sessions && m.sessions[state] < |m.store| then Some(m.sessions[state]) else None
  }

  predicate Receivable(m: Manager, h: nat) {
    && h < |m.store| && m.store[h].status == Pending
    && m.store[h].state in m.sessions && m.sessions[m.store[h].state] == h
  }

  function DeliverStep(m: Manager, h: nat, result: Result): Manager
    requires h < |m.store|
  {
    var s := m.store[h];
    if !Receivable(m, h) || s.callbackReceived then m
    else if s.buffer.Some? then Put(m, h, s.(refusedSends := s.refusedSends + 1))
    else
      Put(m, h, s.(callbackReceived := true, buffer := Some(result), callback := Some(result),
                   accepted := s.accepted + 1))
  }

  datatype CancelAnswer = Stopped | NotFound | NotCancellable

  function CancelAnswerOf(m: Manager, input: string, force: bool, now: int): CancelAnswer {
    var h := Find(Pruned(m, now), input);
    if h.None? then NotFound
    else if m.store[h.value].status != Cancelled && !force && m.store[h.value].status != Pending then NotCancellable
    else Stopped
  }

  /** The commit was entered: it is under way, or over. */
  predicate PastCommit(s: Session) {
    s.status in {Committing, Complete} || (s.status == Failed && s.commits == 1)
  }

  /** The critical section of a cancel. The context is cancelled after it, in a step of its own. */
  function CancelStep(m: Manager, input: string, force: bool, now: int): Manager {
    var p := Pruned(m, now);
    var h := Find(p, input);
    if h.None? || CancelAnswerOf(m, input, force, now).NotCancellable? || m.store[h.value].status == Cancelled then p
    else
      var s := m.store[h.value];
      Deactivated(Put(p, h.value, s.(status := Cancelled, error := "", finishedAt := Some(now),
                                     callbackReceived := true,
                                     forced := s.forced || PastCommit(s))), h.value)
  }

  /** The completion routine's look at the status before the commit. */
  function DecideStep(m: Manager, h: nat): Manager
    requires h < |m.store|
  {
    var s := m.store[h];
    if s.status == Cancelled then Put(m, h, s.(routine := Ending("cancelled", 0)))
    else Put(m, h, s.(status := Committing, routine := CommitCalled))
  }

  function EndStep(m: Manager, h: nat, now: int): Manager
    requires h < |m.store| && m.store[h].routine.Ending?
  {
    var s := m.store[h];
    var t := if s.status == Cancelled then s
             else if s.routine.error != "" then s.(status := Failed, error := s.routine.error)
             else s.(status := Complete, channelId := s.routine.channelId);
    Deactivated(Put(m, h, t.(finishedAt := Some(now), routine := Done)), h)
  }

  datatype Step =
    | StartReads                                   // start or close takes the start lock and reads the active login
    | StartCancels(now: int, listenerStuck: bool)  // the login it saw is cancelled first
    | StartCreates(now: int, state: string, prepared: bool)
    | CloseReads
    | CloseCancels(now: int)
    | Deliver(h: nat, result: Result)
    | Cancel(input: string, now: int)
    | Prune(now: int)
    | Receive(h: nat)                              // the routine takes the buffered callback
    | SeesCancel(h: nat)
    | TimesOut(h: nat)
    | Exchange(h: nat, error: string)              // the code is exchanged, or the result cannot be used
    | Decide(h: nat)
    | Commit(h: nat, answer: Answer)
    | End(h: nat, now: int)
    | CancelContext(h: nat)                        // by whoever cancelled the login, or by its routine on return

  predicate Enabled(m: Manager, step: Step) {
    match step
    case StartReads => m.starter.Idle?
    case StartCancels(_, _) => m.starter.Starting? && m.starter.seen.Some?
    case StartCreates(_, state, _) =>
      && (m.starter.Replaced? || m.starter == Starting(None))
      && Trimmed(state) && forall h :: 0 <= h < |m.store| ==> m.store[h].state != state
    case CloseReads => m.starter.Idle?
    case CloseCancels(_) => m.starter.Closing?
    case Deliver(h, _) => h < |m.store|
    case Receive(h) => h < |m.store| && m.store[h].routine.Waiting? && m.store[h].buffer.Some?
    case SeesCancel(h) => h < |m.store| && m.store[h].routine.Waiting? && m.store[h].contextDone
    case TimesOut(h) => h < |m.store| && m.store[h].routine.Waiting?
    case Exchange(h, _) => h < |m.store| && m.store[h].routine.Holding?
    case Decide(h) => h < |m.store| && m.store[h].routine.Exchanged?
    case Commit(h, _) => h < |m.store| && m.store[h].routine.CommitCalled?
    case End(h, _) => h < |m.store| && m.store[h].routine.Ending?
    case CancelContext(h) => h < |m.store| && (m.store[h].status == Cancelled || m.store[h].routine.Done?)
    case _ => true
  }

  /** A result that carries no error and the login's own state is exchanged; any other one fails. */
  function ExchangedRoutine(s: Session, error: string): Routine
    requires s.routine.Holding?
  {
    var r := s.routine.result;
    if r.error != "" then Ending(r.error, 0)
    else if r.state != s.state then Ending("invalid OAuth state", 0)
    else if error != "" then Ending(error, 0)
    else Exchanged
  }

  function ExchangedSession(s: Session, error: string): Session
    requires s.routine.Holding?
  {
    var next := ExchangedRoutine(s, error);
    s.(routine := next, failure := if next.Ending? then Some(next.error) else None)
  }

  /** A commit that was refused leaves no channel. */
  function AnsweredRoutine(answer: Answer): Routine {
    match answer
    case Created(channelId) => Ending("", channelId)
    case Refused(error) => Ending(error, 0)
  }

  function StateOf(m: Manager, h: Option<nat>): string {
    if h.Some? && h.value < |m.store| then m.store[h.value].state else ""
  }

  function StartCancelsStep(m: Manager, now: int, listenerStuck: bool): Manager
    requires m.starter.Starting?
  {
    var input := StateOf(m, m.starter.seen);
    var stopped := CancelAnswerOf(m, input, false, now).Stopped? && !listenerStuck;
    CancelStep(m, input, false, now).(starter := if stopped then Replaced else Idle)
  }

  function StartCreatesStep(m: Manager, now: int, state: string, prepared: bool): Manager {
    var p := Pruned(m, now).(starter := Idle);
    if p.active.Some? || !prepared then p
    else Manager(p.store + [NewSession(state)], p.sessions[state := |p.store|], Some(|p.store|), Idle)
  }

  function CloseCancelsStep(m: Manager, now: int): Manager
    requires m.starter.Closing?
  {
    if m.starter.seen.None? then m.(starter := Idle)
    else CancelStep(m, StateOf(m, m.starter.seen), true, now).(starter := Idle)
  }

  function Do(m: Manager, step: Step): Manager
    requires Enabled(m, step)
  {
    match step
    case StartReads => m.(starter := Starting(m.active))
    case StartCancels(now, listenerStuck) => StartCancelsStep(m, now, listenerStuck)
    case StartCreates(now, state, prepared) => StartCreatesStep(m, now, state, prepared)
    case CloseReads => m.(starter := Closing(m.active))
    case CloseCancels(now) => CloseCancelsStep(m, now)
    case Deliver(h, result) => DeliverStep(m, h, result)
    case Cancel(input, now) => CancelStep(m, input, false, now)
    case Prune(now) => Pruned(m, now)
    case Receive(h) => Put(m, h, m.store[h].(routine := Holding(m.store[h].buffer.value), buffer := None))
    case SeesCancel(h) => Put(m, h, m.store[h].(routine := Holding(Result("", m.store[h].state, "cancelled"))))
    case TimesOut(h) => Put(m, h, m.store[h].(routine := Holding(Result("", m.store[h].state, "timed out"))))
    case Exchange(h, error) => Put(m, h, ExchangedSession(m.store[h], error))
    case Decide(h) => DecideStep(m, h)
    case Commit(h, answer) =>
      Put(m, h, m.store[h].(routine := AnsweredRoutine(answer), answer := Some(answer),
                            commits := m.store[h].commits + 1))
    case End(h, now) => EndStep(m, h, now)
    case CancelContext(h) => Put(m, h, m.store[h].(contextDone := true))
  }

  // ---- invariants ----------------------------------------------------------------------------

  predicate Sound(s: Session) {
    && (match s.routine
        case Waiting => s.status in {Pending, Cancelled} && s.commits == 0
        case Holding(_) => s.status in {Pending, Cancelled} && s.commits == 0
        case Exchanged => s.status in {Pending, Cancelled} && s.commits == 0
        case CommitCalled => (s.status == Committing || (s.status == Cancelled && s.forced)) && s.commits == 0
        case Ending(error, _) =>
          && s.commits <= 1 && s.status in {Pending, Committing, Cancelled}
          && (s.status == Pending ==> s.commits == 0)
          && (s.status == Committing || error == "" ==> s.commits == 1)
        case Done => s.commits <= 1 && s.status in {Complete, Failed, Cancelled})
    && (s.status == Complete ==> s.commits == 1)
    && (s.status == Committing ==> s.routine.CommitCalled? || s.routine.Ending?)
    && (s.finishedAt.None? <==> s.status in {Pending, Committing})
    && (s.status == Cancelled ==> (s.forced <==> s.commits == 1 || s.routine.CommitCalled?))
    && (s.forced ==> s.status == Cancelled)
    && (s.buffer.Some? ==> s.callbackReceived)
    && s.refusedSends == 0
    && s.accepted <= (if s.callbackReceived then 1 else 0)
    && Trimmed(s.state)
    && OwnCallback(s) && EndsRight(s)
  }

  /** Results handed on are the accepted callback, or carry an error; only the login's own callback, without an
      error, gets to the commit. */
  predicate OwnCallback(s: Session) {
    && (s.callback.Some? ==> s.callbackReceived)
    && (s.buffer.Some? ==> s.callback == s.buffer)
    && (s.routine.Holding? ==> s.routine.result.error != "" || s.callback == Some(s.routine.result))
    && (s.routine.Exchanged? || s.routine.CommitCalled? || s.commits > 0 ==>
          s.callback.Some? && s.callback.value.error == "" && s.callback.value.state == s.state)
  }

  /** The end of a login says what ended it: the commit's answer, the error the routine gave up with, or a cancel. */
  predicate EndsRight(s: Session) {
    && (s.commits == 0 <==> s.answer.None?)
    && (match s.routine
        case Waiting => s.failure.None?
        case Holding(_) => s.failure.None?
        case Exchanged => s.failure.None?
        case CommitCalled => s.failure.None?
        case Ending(error, channelId) =>
          && (s.answer.Some? ==> s.routine == AnsweredRoutine(s.answer.value) && s.failure.None?)
          && (s.answer.None? ==> channelId == 0 && error != "" && (s.failure == Some(error) || s.status == Cancelled))
        case Done => s.answer.Some? ==> s.failure.None?)
    && (s.status == Complete ==> s.answer.Some? && AnsweredRoutine(s.answer.value) == Ending("", s.channelId))
    && (s.status == Failed ==> s.error != "" && (s.failure == Some(s.error) || s.answer == Some(Refused(s.error))))
    && (s.status in {Pending, Committing, Failed} ==> s.channelId == 0)
    && (s.status != Failed ==> s.error == "")
  }

  ghost predicate AllSound(m: Manager) {
    forall h :: 0 <= h < |m.store| ==> Sound(m.store[h])
  }

  ghost predicate Tables(m: Manager) {
    && (forall h, k :: 0 <= h < k < |m.store| ==> m.store[h].state != m.store[k].state)
    && (forall state :: state in m.sessions ==>
          m.sessions[state] < |m.store| && m.store[m.sessions[state]].state == state)
    && (m.starter.Starting? || m.starter.Closing? ==> m.starter.seen.Some? ==> m.starter.seen.value < |m.store|)
  }

  predicate Registered(m: Manager, h: nat) {
    h < |m.store| && m.store[h].state in m.sessions && m.sessions[m.store[h].state] == h
  }

  /** The unfinished login, if there is one, is the active one, and it is registered. */
  ghost predicate Active(m: Manager) {
    && (m.active.Some? ==> m.active.value < |m.store| && Registered(m, m.active.value) &&
                           m.store[m.active.value].finishedAt.None?)
    && (forall h :: 0 <= h < |m.store| && m.store[h].finishedAt.None? ==> m.active == Some(h))
  }

  ghost predicate Inv(m: Manager) {
    AllSound(m) && Tables(m) && Active(m)
  }

  // ---- preservation --------------------------------------------------------------------------

  lemma PutKeeps(m: Manager, h: nat, s: Session)
    requires Inv(m) && h < |m.store| && Sound(s) && s.state == m.store[h].state
    requires s.finishedAt.None? == m.store[h].finishedAt.None?
    ensures Inv(Put(m, h, s))
  {
    hide Sound;
  }

  lemma FinishKeeps(m: Manager, h: nat, s: Session)
    requires Inv(m) && h < |m.store| && Sound(s) && s.state == m.store[h].state && s.finishedAt.Some?
    ensures Inv(Deactivated(Put(m, h, s), h))
  {
    hide Sound;
  }

  lemma PruneKeeps(m: Manager, now: int)
    requires Inv(m)
    ensures Inv(Pruned(m, now))
  {
    hide Sound;
    var n := Pruned(m, now);
    if m.active.Some? {
      var s := m.store[m.active.value];
      assert Kept(m, s.state, now);
      assert Registered(n, m.active.value);
    }
  }

  lemma CancelKeeps(m: Manager, input: string, force: bool, now: int)
    requires Inv(m)
    ensures Inv(CancelStep(m, input, force, now)) && |CancelStep(m, input, force, now).store| == |m.store|
    ensures CancelStep(m, input, force, now).starter == m.starter
  {
    hide TrimSpace, Trimmed;
    PruneKeeps(m, now);
    var p := Pruned(m, now);
    var h := Find(p, input);
    if h.Some? && !(CancelAnswerOf(m, input, force, now).NotCancellable? || m.store[h.value].status == Cancelled) {
      var s := m.store[h.value];
      assert Sound(s);
      CancelledSound(s, now);
      hide Sound, Tables, Active;
      FinishKeeps(p, h.value, s.(status := Cancelled, error := "", finishedAt := Some(now), callbackReceived := true,
                                 forced := s.forced || PastCommit(s)));
    }
  }

  lemma CancelledSound(s: Session, now: int)
    requires Sound(s) && s.status != Cancelled
    ensures Sound(s.(status := Cancelled, error := "", finishedAt := Some(now), callbackReceived := true,
                     forced := s.forced || PastCommit(s)))
  {
    hide Trimmed;
  }

  lemma StarterKeeps(m: Manager, starter: Starter)
    requires Inv(m) && (starter.Idle? || starter.Replaced? || starter == Starting(m.active) ||
                        starter == Closing(m.active))
    ensures Inv(m.(starter := starter))
  {
    hide Sound, Kept;
  }

  lemma CreateKeeps(m: Manager, now: int, state: string, prepared: bool)
    requires Inv(m) && Enabled(m, StartCreates(now, state, prepared))
    ensures Inv(StartCreatesStep(m, now, state, prepared))
  {
    PruneKeeps(m, now);
    var p := Pruned(m, now).(starter := Idle);
    hide Pruned;
    StarterKeeps(Pruned(m, now), Idle);
    if p.active.None? && prepared {
      assert Sound(NewSession(state)) by { hide Pruned; }
      hide Sound;
      var n := Manager(p.store + [NewSession(state)], p.sessions[state := |p.store|], Some(|p.store|), Idle);
      assert n.store[|p.store|] == NewSession(state);
      assert p.store == m.store by { PrunedStore(m, now); }
      assert Tables(n) && AllSound(n) && Active(n);
    }
  }

  lemma PrunedStore(m: Manager, now: int)
    ensures Pruned(m, now).store == m.store && Pruned(m, now).active == m.active && Pruned(m, now).starter == m.starter
  {
  }

  lemma RoutineKeeps(m: Manager, step: Step)
    requires Inv(m) && Enabled(m, step)
    requires step.Receive? || step.SeesCancel? || step.TimesOut? || step.Exchange? || step.Decide? || step.Commit? ||
             step.End? || step.CancelContext?
    ensures Inv(Do(m, step))
  {
    hide Tables, Active, Trimmed, ExchangedRoutine;
    assert Sound(m.store[step.h]);
    if step.End? {
      var t := Do(m, step).store[step.h];
      assert Do(m, step).store == m.store[step.h := t];
      FinishKeeps(m, step.h, t);
    } else {
      RoutineSession(m, step);
      hide Do, Enabled, Sound;
      PutKeeps(m, step.h, Do(m, step).store[step.h]);
    }
  }

  /** A step of the routine before its end changes one session, and leaves it sound and as finished as it was. */
  lemma RoutineSession(m: Manager, step: Step)
    requires Enabled(m, step)
    requires step.Receive? || step.SeesCancel? || step.TimesOut? || step.Exchange? || step.Decide? || step.Commit? ||
             step.CancelContext?
    requires step.h < |m.store| && Sound(m.store[step.h])
    ensures |Do(m, step).store| == |m.store|
    ensures var s, t := m.store[step.h], Do(m, step).store[step.h];
      && Do(m, step) == Put(m, step.h, t)
      && Sound(t) && t.state == s.state && t.finishedAt.None? == s.finishedAt.None?
  {
    hide Trimmed, ExchangedRoutine;
    if step.Exchange? { RoutineAfterExchange(m.store[step.h], step.error); }
  }

  /** Exactly the login's own callback without an error, and an exchange without one, lead on; anything else ends
      the routine with the first error there is. */
  lemma RoutineAfterExchange(s: Session, error: string)
    requires s.routine.Holding?
    ensures var r := s.routine.result;
      ExchangedRoutine(s, error) ==
      if r.error == "" && r.state == s.state && error == "" then Exchanged
      else Ending(if r.error != "" then r.error else if r.state != s.state then "invalid OAuth state" else error, 0)
    ensures ExchangedRoutine(s, error).Ending? ==> ExchangedRoutine(s, error).error != ""
  {
  }

  lemma DeliverKeeps(m: Manager, h: nat, result: Result)
    requires Inv(m) && h < |m.store|
    ensures Inv(DeliverStep(m, h, result))
  {
    hide Tables, Active, Trimmed;
    var s := m.store[h];
    assert Sound(s);
    if Receivable(m, h) && !s.callbackReceived {
      PutKeeps(m, h, s.(callbackReceived := true, buffer := Some(result), callback := Some(result),
                        accepted := s.accepted + 1));
    }
  }

  lemma StepKeeps(m: Manager, step: Step)
    requires Inv(m) && Enabled(m, step)
    ensures Inv(Do(m, step))
  {
    hide Inv, CancelStep, Pruned, StartCreatesStep, DeliverStep, CancelAnswerOf;
    match step
    case StartReads => StarterKeeps(m, Starting(m.active));
    case CloseReads => StarterKeeps(m, Closing(m.active));
    case StartCancels(now, listenerStuck) =>
      var input := StateOf(m, m.starter.seen);
      CancelKeeps(m, input, false, now);
      var n := CancelStep(m, input, false, now);
      StarterKeeps(n, Do(m, step).starter);
    case CloseCancels(now) =>
      StarterKeeps(m, Idle);
      var input := StateOf(m, m.starter.seen);
      CancelKeeps(m, input, true, now);
      StarterKeeps(CancelStep(m, input, true, now), Idle);
    case StartCreates(now, state, prepared) => CreateKeeps(m, now, state, prepared);
    case Deliver(h, result) => DeliverKeeps(m, h, result);
    case Cancel(input, now) => CancelKeeps(m, input, false, now);
    case Prune(now) => PruneKeeps(m, now);
    case _ => RoutineKeeps(m, step);
  }
}
