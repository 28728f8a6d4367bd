/** xAI login sessions: start, callback, exchange, commit, cancel, expiry and close, each critical
    section one step, with the exchange and the commit as steps of their own in between. */
module XaiSessions {
  import opened Names
  import opened Seqs

  const SESSION_TTL := 1800
  const TERMINAL_TTL := 120

  datatype Status = Pending | Processing | Committing | Complete | Failed | Cancelled

  /** What a commit answers. */
  datatype Answer = Created(channelId: int) | Refused(error: string)

  /** How far the one handler that took a session's callback got; a failed exchange says why. */
  datatype Handler =
    NoHandler | Exchanging | Exchanged(failure: Option<string>) | CommitCalled | Committed(answer: Answer) | Returned

  /** A session object. The last four fields are bookkeeping: the outgoing calls made for it and their answers. */
  datatype Session = Session(
    state: string, admin: string, verifier: string, status: Status, error: string, channelId: int,
    createdAt: int, finishedAt: Option<int>, contextDone: bool, handler: Handler, exchanges: nat, commits: nat,
    failure: Option<string>, answer: Option<Answer>)

  const EXPIRED := "xAI OAuth session expired"

  function NewSession(state: string, admin: string, verifier: string, now: int): Session {
    Session(state, admin, verifier, Pending, "", 0, now, None, false, NoHandler, 0, 0, None, None)
  }

  /** `store` holds every session object ever made: a handler keeps its session when the table drops it.
      `toCancel` names the sessions whose context a close has still to cancel. */
  datatype Manager = Manager(
    store: seq<Session>, sessions: map<string, nat>, activeById: map<string, string>, closed: bool, toCancel: set<nat>)

  predicate Cancelable(s: Session) {
    s.status in {Pending, Processing}
  }

  predicate Terminal(s: Session) {
    s.status in {Complete, Failed, Cancelled}
  }

  // ---- steps on the manager's value ----------------------------------------------------------

  function Put(m: Manager, h: nat, s: Session): Manager
    requires h < |m.store|
  {
    m.(store := m.store[h := s])
  }

  function Ended(s: Session, status: Status, error: string, channelId: int, now: int): Session {
    s.(status := status, error := error, channelId := channelId, verifier := "", finishedAt := Some(now),
       contextDone := true)
  }

  /** Drops the admin's active entry when it names this session. */
  function Inactive(active: map<string, string>, s: Session): map<string, string> {
    if s.admin in active && active[s.admin] == s.state then active - {s.admin} else active
  }

  function Finish(m: Manager, h: nat, status: Status, error: string, channelId: int, now: int): Manager
    requires h < |m.store|
  {
    Put(m, h, Ended(m.store[h], status, error, channelId, now)).(activeById := Inactive(m.activeById, m.store[h]))
  }

  predicate Overdue(s: Session, now: int) {
    s.finishedAt.None? && Cancelable(s) && now - s.createdAt > SESSION_TTL
  }

  predicate Stale(s: Session, now: int) {
    s.finishedAt.Some? && now - s.finishedAt.value > TERMINAL_TTL
  }

  predicate Registered(m: Manager, h: nat) {
    h < |m.store| && m.store[h].state in m.sessions && m.sessions[m.store[h].state] == h
  }

  function PrunedSession(m: Manager, h: nat, now: int): Session
    requires h < |m.store|
  {
    var s := m.store[h];
    if Registered(m, h) && Overdue(s, now) then Ended(s, Failed, EXPIRED, 0, now) else s
  }

  predicate Forgotten(m: Manager, state: string, now: int)
    requires state in m.sessions
  {
    m.sessions[state] < |m.store| && Stale(m.store[m.sessions[state]], now)
  }

  /** The active entry of `admin` names a session that is overdue. */
  predicate Lapsed(m: Manager, admin: string, now: int)
    requires admin in m.activeById
  {
    exists h :: 0 <= h < |m.store| && Registered(m, h) && Overdue(m.store[h], now) && m.store[h].admin == admin &&
                m.store[h].state == m.activeById[admin]
  }

  /** Ends overdue sessions of the table and forgets those that ended long ago. */
  function Pruned(m: Manager, now: int): Manager {
    Manager(seq(|m.store|, h requires 0 <= h < |m.store| => PrunedSession(m, h, now)),
            map state | state in m.sessions && !Forgotten(m, state, now) :: m.sessions[state],
            map admin | admin in m.activeById && !Lapsed(m, admin, now) :: m.activeById[admin],
            m.closed, m.toCancel)
  }

  function ActiveHandle(m: Manager, admin: string): Option<nat> {
    if admin in m.activeById && m.activeById[admin] in m.sessions && m.sessions[m.activeById[admin]] < |m.store|
    then Some(m.sessions[m.activeById[admin]]) else None
  }

  /** Cancels the admin's current session, if it can still be cancelled. */
  function CancelActive(m: Manager, admin: string, now: int): Manager {
    var h := ActiveHandle(m, admin);
    if h.Some? && Cancelable(m.store[h.value]) then Finish(m, h.value, Cancelled, "", 0, now) else m
  }

  datatype Step =
    | Start(adminInput: string, state: string, verifier: string, now: int)
    | Callback(admin: string, input: string, now: int)
    | Exchange(h: nat, failure: Option<string>)
    | ExchangeFailed(h: nat, now: int)
    | BeginCommit(h: nat)
    | CallCommit(h: nat, answer: Answer)
    | EndCommit(h: nat, now: int)
    | Cancel(admin: string, state: string, now: int)
    | CancelByAdmin(admin: string, now: int)
    | Prune(now: int)
    | Shutdown                              // the server's base context is cancelled
    | Close
    | CancelContext(h: nat)                 // after a close, outside the lock

  /** A callback is for the session named by its state, or for the admin's active one. */
  function CallbackTarget(m: Manager, admin: string, input: string): Option<nat> {
    var state := if TrimSpace(input) != "" then TrimSpace(input)
                 else if TrimSpace(admin) in m.activeById then m.activeById[TrimSpace(admin)] else "";
    if state in m.sessions && m.sessions[state] < |m.store| && m.store[m.sessions[state]].admin == TrimSpace(admin)
    then Some(m.sessions[state]) else None
  }

  function CancelTarget(m: Manager, admin: string, state: string): Option<nat> {
    var key := TrimSpace(state);
    if key in m.sessions && m.sessions[key] < |m.store| && m.store[m.sessions[key]].admin == TrimSpace(admin)
    then Some(m.sessions[key]) else None
  }

  predicate Waits(m: Manager, h: nat, handler: Handler) {
    h < |m.store| && m.store[h].handler == handler
  }

  /** Fresh states come from the authorization service; the handler steps need a handler at that point. */
  predicate Enabled(m: Manager, step: Step) {
    match step
    case Start(_, state, _, _) => state != "" && forall h :: 0 <= h < |m.store| ==> m.store[h].state != state
    case Exchange(h, _) => Waits(m, h, Exchanging)
    case ExchangeFailed(h, _) => h < |m.store| && m.store[h].handler.Exchanged? && m.store[h].handler.failure.Some?
    case BeginCommit(h) => Waits(m, h, Exchanged(None))
    case CallCommit(h, _) => Waits(m, h, CommitCalled)
    case CancelContext(h) => h in m.toCancel && h < |m.store|
    case EndCommit(h, _) => h < |m.store| && m.store[h].handler.Committed?
    case _ => true
  }

  function StartStep(m: Manager, adminInput: string, state: string, verifier: string, now: int): Manager {
    var admin := TrimSpace(adminInput);
    if admin == "" || m.closed then m
    else
      var p := CancelActive(Pruned(m, now), admin, now);
      Manager(p.store + [NewSession(state, admin, verifier, now)],
              p.sessions[state := |p.store|], p.activeById[admin := state], p.closed, p.toCancel)
  }

  function CallbackStep(m: Manager, admin: string, input: string, now: int): Manager {
    var p := Pruned(m, now);
    var h := CallbackTarget(p, admin, input);
    if h.None? || p.store[h.value].status != Pending then p
    else Put(p, h.value, p.store[h.value].(status := Processing, handler := Exchanging))
  }

  function ExchangeFailedStep(m: Manager, h: nat, now: int): Manager
    requires h < |m.store| && m.store[h].handler.Exchanged? && m.store[h].handler.failure.Some?
  {
    var n := Put(m, h, m.store[h].(handler := Returned));
    if m.store[h].status == Cancelled then n else Finish(n, h, Failed, m.store[h].handler.failure.value, 0, now)
  }

  function BeginCommitStep(m: Manager, h: nat): Manager
    requires h < |m.store|
  {
    var s := m.store[h];
    if s.status == Cancelled || s.contextDone then Put(m, h, s.(handler := Returned))
    else Put(m, h, s.(status := Committing, verifier := "",
                      handler := CommitCalled)).(activeById := Inactive(m.activeById, s))
  }

  function EndCommitStep(m: Manager, h: nat, now: int): Manager
    requires h < |m.store| && m.store[h].handler.Committed?
  {
    var n := Put(m, h, m.store[h].(handler := Returned));
    match m.store[h].handler.answer
    case Created(channelId) => Finish(n, h, Complete, "", channelId, now)
    case Refused(error) => Finish(n, h, Failed, error, 0, now)
  }

  function CancelStep(m: Manager, admin: string, state: string, now: int): Manager {
    var h := CancelTarget(m, admin, state);
    if h.Some? && Cancelable(m.store[h.value]) then Finish(m, h.value, Cancelled, "", 0, now) else m
  }

  /** The critical section of a close; the contexts are cancelled after it, one by one. */
  function CloseStep(m: Manager): Manager {
    if m.closed then m
    else
      Manager(seq(|m.store|, h requires 0 <= h < |m.store| =>
                if Registered(m, h) then m.store[h].(verifier := "") else m.store[h]),
              map[], map[], true, set h | 0 <= h < |m.store| && Registered(m, h))
  }

  function CancelContextStep(m: Manager, h: nat): Manager
    requires h < |m.store|
  {
    Put(m, h, m.store[h].(contextDone := true)).(toCancel := m.toCancel - {h})
  }

  function Do(m: Manager, step: Step): Manager
    requires Enabled(m, step)
  {
    match step
    case Start(adminInput, state, verifier, now) => StartStep(m, adminInput, state, verifier, now)
    case Callback(admin, input, now) => CallbackStep(m, admin, input, now)
    case Exchange(h, failure) =>
      Put(m, h, m.store[h].(handler := Exchanged(failure), failure := failure, exchanges := m.store[h].exchanges + 1))
    case ExchangeFailed(h, now) => ExchangeFailedStep(m, h, now)
    case BeginCommit(h) => BeginCommitStep(m, h)
    case CallCommit(h, answer) =>
      Put(m, h, m.store[h].(handler := Committed(answer), answer := Some(answer), commits := m.store[h].commits + 1))
    case EndCommit(h, now) => EndCommitStep(m, h, now)
    case Cancel(admin, state, now) => CancelStep(m, admin, state, now)
    case CancelByAdmin(admin, now) => CancelActive(m, TrimSpace(admin), now)
    case Prune(now) => Pruned(m, now)
    case Shutdown => m.(store := seq(|m.store|, h requires 0 <= h < |m.store| => m.store[h].(contextDone := true)))
    case Close => CloseStep(m)
    case CancelContext(h) => CancelContextStep(m, h)
  }

  const EMPTY := Manager([], map[], map[], false, {})

  // ---- invariants ----------------------------------------------------------------------------

  /** One session: its status, its handler and its two outgoing calls fit together. */
  predicate Sound(s: Session) {
    && (match s.handler
        case NoHandler => s.status in {Pending, Failed, Cancelled} && s.exchanges == 0 && s.commits == 0
        case Exchanging => s.status in {Processing, Failed, Cancelled} && s.exchanges == 0 && s.commits == 0
        case Exchanged(failure) =>
          s.status in {Processing, Failed, Cancelled} && s.exchanges == 1 && s.commits == 0 && s.failure == failure
        case CommitCalled => s.status == Committing && s.exchanges == 1 && s.commits == 0 && s.failure.None?
        case Committed(answer) =>
          s.status == Committing && s.exchanges == 1 && s.commits == 1 && s.failure.None? && s.answer == Some(answer)
        case Returned =>
          && s.exchanges == 1 && s.commits <= 1
          && (Terminal(s) || (s.status == Processing && s.contextDone && s.commits == 0 && s.failure.None?)))
    && (Terminal(s) <==> s.finishedAt.Some?)
    && (Terminal(s) ==> s.contextDone)
    && (!Cancelable(s) ==> s.verifier == "")
    && (s.status == Cancelled ==> s.commits == 0)
    && s.state != ""
    && EndsRight(s)
  }

  /** The end of a session says what ended it: the commit's answer, the exchange's failure, time, or a cancel. */
  predicate EndsRight(s: Session) {
    && (s.commits == 0 <==> s.answer.None?)
    && (s.exchanges == 0 ==> s.failure.None?)
    && (s.status == Complete ==> s.answer == Some(Created(s.channelId)) && s.error == "")
    && (s.status == Failed ==>
          && s.channelId == 0
          && (s.answer == Some(Refused(s.error)) ||
              (s.answer.None? && (s.failure == Some(s.error) || s.error == EXPIRED))))
    && (s.handler.Returned? && s.failure.Some? && s.status != Cancelled ==>
          s.status == Failed && s.error == s.failure.value)
    && (s.status !in {Complete, Failed} ==> s.error == "" && s.channelId == 0)
  }

  ghost predicate AllSound(m: Manager) {
    forall h :: 0 <= h < |m.store| ==> Sound(m.store[h])
  }

  ghost predicate Tables(m: Manager) {
    && (forall h, k :: 0 <= h < k < |m.store| ==> m.store[h].state != m.store[k].state)
    && (forall state :: state in m.sessions ==>
          m.sessions[state] < |m.store| && m.store[m.sessions[state]].state == state)
    && (m.closed ==> m.sessions == map[] && m.activeById == map[])
  }

  /** `h` is the session the table and the admin's active entry lead to. */
  predicate Current(m: Manager, h: nat) {
    && Registered(m, h)
    && m.store[h].admin in m.activeById && m.activeById[m.store[h].admin] == m.store[h].state
  }

  /** While the manager is open, the active entries are exactly the pending and processing sessions. */
  ghost predicate Active(m: Manager) {
    && (!m.closed ==> forall h :: 0 <= h < |m.store| && Cancelable(m.store[h]) ==> Current(m, h))
    && (forall admin :: admin in m.activeById ==> exists h :: 0 <= h < |m.store| && Points(m, admin, h))
  }

  predicate Points(m: Manager, admin: string, h: nat) {
    h < |m.store| && Current(m, h) && Cancelable(m.store[h]) && m.store[h].admin == admin
  }

  ghost predicate Inv(m: Manager) {
    AllSound(m) && Tables(m) && Active(m)
  }
}
