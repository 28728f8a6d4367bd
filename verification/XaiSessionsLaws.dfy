/** What every run of the xAI session machine keeps: one exchange and one commit at most, no commit
    after a cancel or an expiry, and one live session per administrator. */
module XaiSessionsLaws {
  import opened Names
  import opened Seqs
  import opened XaiSessions

  // ---- replacing one session -----------------------------------------------------------------

  predicate SameIdentity(s: Session, t: Session) {
    s.state == t.state && s.admin == t.admin
  }

  /** Sessions may change as long as they stay live or not, under the same tables. */
  lemma SameShape(m: Manager, n: Manager)
    requires Inv(m) && |n.store| == |m.store| && AllSound(n)
    requires n.sessions == m.sessions && n.activeById == m.activeById && n.closed == m.closed
    requires forall h :: 0 <= h < |m.store| ==> SameIdentity(n.store[h], m.store[h])
    requires forall h :: 0 <= h < |m.store| ==> Cancelable(n.store[h]) == Cancelable(m.store[h])
    ensures Inv(n)
  {
    hide Sound, Cancelable;
    assert forall h :: 0 <= h < |m.store| ==> Current(m, h) == Current(n, h);
    assert Tables(n);
    hide Tables, Current, AllSound;
    forall admin | admin in n.activeById ensures exists h :: 0 <= h < |n.store| && Points(n, admin, h) {
      var h :| 0 <= h < |m.store| && Points(m, admin, h);
      assert Points(n, admin, h);
    }
  }

  /** A session that stays live, or stays not live, leaves the tables right. */
  lemma ReplaceKeeps(m: Manager, h: nat, s: Session)
    requires h < |m.store| && Inv(m) && Sound(s) && SameIdentity(s, m.store[h])
    requires Cancelable(s) == Cancelable(m.store[h])
    ensures Inv(Put(m, h, s))
  {
    hide Sound, Cancelable, Tables, Active;
    SameShape(m, Put(m, h, s));
  }

  lemma RetiredTables(m: Manager, h: nat, s: Session)
    requires h < |m.store| && Tables(m) && SameIdentity(s, m.store[h])
    ensures Tables(Put(m, h, s).(activeById := Inactive(m.activeById, m.store[h])))
  {
  }

  /** A session that stops being live takes its active entry with it. */
  lemma RetireKeeps(m: Manager, h: nat, s: Session)
    requires h < |m.store| && Inv(m) && Sound(s) && SameIdentity(s, m.store[h]) && !Cancelable(s)
    ensures Inv(Put(m, h, s).(activeById := Inactive(m.activeById, m.store[h])))
  {
    hide Sound, Cancelable;
    RetiredTables(m, h, s);
    var n := Put(m, h, s).(activeById := Inactive(m.activeById, m.store[h]));
    assert AllSound(n);
    hide AllSound;
    forall k | 0 <= k < |m.store| && k != h && Current(m, k) ensures Current(n, k) {
      OthersCurrent(m, h, s, k);
    }
    assert forall k :: 0 <= k < |m.store| && k != h ==> n.store[k] == m.store[k];
    hide Inactive, Tables, Current;
    forall admin | admin in n.activeById ensures exists k :: 0 <= k < |n.store| && Points(n, admin, k) {
      StillPoints(m, h, s, admin);
    }
  }

  lemma OthersCurrent(m: Manager, h: nat, s: Session, k: nat)
    requires h < |m.store| && k < |m.store| && k != h && Tables(m) && SameIdentity(s, m.store[h]) && Current(m, k)
    ensures Current(Put(m, h, s).(activeById := Inactive(m.activeById, m.store[h])), k)
  {
  }

  lemma StillPoints(m: Manager, h: nat, s: Session, admin: string)
    requires h < |m.store| && Inv(m) && SameIdentity(s, m.store[h]) && !Cancelable(s)
    requires admin in Inactive(m.activeById, m.store[h])
    ensures var n := Put(m, h, s).(activeById := Inactive(m.activeById, m.store[h]));
      exists k :: 0 <= k < |n.store| && Points(n, admin, k)
  {
    hide Sound, Cancelable;
    var n := Put(m, h, s).(activeById := Inactive(m.activeById, m.store[h]));
    assert admin in m.activeById;
    var k :| 0 <= k < |m.store| && Points(m, admin, k);
    assert k != h;
    OthersCurrent(m, h, s, k);
    assert Points(n, admin, k);
  }

  lemma FinishKeeps(m: Manager, h: nat, status: Status, error: string, channelId: int, now: int)
    requires h < |m.store| && Inv(m) && Sound(Ended(m.store[h], status, error, channelId, now))
    requires status in {Complete, Failed, Cancelled}
    ensures Inv(Finish(m, h, status, error, channelId, now))
  {
    hide Sound, Inv;
    RetireKeeps(m, h, Ended(m.store[h], status, error, channelId, now));
  }

  lemma CancelActiveKeeps(m: Manager, admin: string, now: int)
    requires Inv(m)
    ensures Inv(CancelActive(m, admin, now))
    ensures CancelActive(m, admin, now).closed == m.closed && |CancelActive(m, admin, now).store| == |m.store|
    ensures forall h :: 0 <= h < |m.store| ==> SameIdentity(CancelActive(m, admin, now).store[h], m.store[h])
    ensures !m.closed ==> forall h :: 0 <= h < |m.store| && m.store[h].admin == admin ==>
        !Cancelable(CancelActive(m, admin, now).store[h])
  {
    hide TrimSpace;
    var h := ActiveHandle(m, admin);
    if h.Some? && Cancelable(m.store[h.value]) {
      assert Sound(m.store[h.value]);
      FinishKeeps(m, h.value, Cancelled, "", 0, now);
    }
    forall k | 0 <= k < |m.store| && !m.closed && m.store[k].admin == admin
      ensures !Cancelable(CancelActive(m, admin, now).store[k])
    {
      if Cancelable(m.store[k]) { assert Current(m, k); }
    }
  }

  // ---- pruning -------------------------------------------------------------------------------

  lemma PrunedSessionFacts(m: Manager, h: nat, now: int)
    requires h < |m.store| && Sound(m.store[h])
    ensures var s := PrunedSession(m, h, now);
      && Sound(s) && SameIdentity(s, m.store[h])
      && (Cancelable(s) ==> s == m.store[h] && !(Registered(m, h) && Overdue(s, now)))
      && (!Cancelable(s) ==> Terminal(s) || !Cancelable(m.store[h]))
      && (Cancelable(m.store[h]) && !Cancelable(s) ==> Registered(m, h) && Overdue(m.store[h], now))
  {
  }

  lemma PruneKeeps(m: Manager, now: int)
    requires Inv(m)
    ensures Inv(Pruned(m, now)) && Pruned(m, now).closed == m.closed && |Pruned(m, now).store| == |m.store|
    ensures forall h :: 0 <= h < |m.store| ==> SameIdentity(Pruned(m, now).store[h], m.store[h])
  {
    hide Sound, Cancelable, Overdue, Stale, PrunedSession;
    var n := Pruned(m, now);
    forall h | 0 <= h < |m.store| ensures Sound(n.store[h]) && SameIdentity(n.store[h], m.store[h]) {
      PrunedSessionFacts(m, h, now);
    }
    forall h | 0 <= h < |n.store| && Cancelable(n.store[h]) && !n.closed ensures Current(n, h) {
      PrunedSessionFacts(m, h, now);
      assert Current(m, h);
      LiveStaysCurrent(m, h, now);
    }
    forall admin | admin in n.activeById ensures exists h :: 0 <= h < |n.store| && Points(n, admin, h) {
      var h :| 0 <= h < |m.store| && Points(m, admin, h);
      PointsSurvives(m, admin, h, now);
    }
  }

  lemma PointsSurvives(m: Manager, admin: string, h: nat, now: int)
    requires Inv(m) && Points(m, admin, h) && !Lapsed(m, admin, now)
    ensures Points(Pruned(m, now), admin, h)
  {
    hide Sound, Overdue, Stale, Cancelable, PrunedSession;
    assert !(Registered(m, h) && Overdue(m.store[h], now));
    PrunedSessionFacts(m, h, now);
    LiveStaysCurrent(m, h, now);
  }

  lemma LiveStaysCurrent(m: Manager, h: nat, now: int)
    requires Inv(m) && h < |m.store| && Cancelable(PrunedSession(m, h, now)) && Current(m, h)
    ensures Current(Pruned(m, now), h)
  {
    hide Sound, Overdue;
    PrunedSessionFacts(m, h, now);
    var s, n := m.store[h], Pruned(m, now);
    assert !Forgotten(m, s.state, now) by { LiveIsNotStale(s, now); }
    assert !Lapsed(m, s.admin, now) by {
      forall k | 0 <= k < |m.store| && Registered(m, k) && m.store[k].state == s.state ensures k == h {}
    }
  }

  lemma LiveIsNotStale(s: Session, now: int)
    requires Sound(s) && Cancelable(s)
    ensures !Stale(s, now)
  {
  }

  // ---- every step ----------------------------------------------------------------------------

  lemma StartKeeps(m: Manager, adminInput: string, state: string, verifier: string, now: int)
    requires Inv(m) && Enabled(m, Start(adminInput, state, verifier, now))
    ensures Inv(StartStep(m, adminInput, state, verifier, now))
  {
    hide Pruned, CancelActive, Cancelable, TrimSpace;
    var admin := TrimSpace(adminInput);
    if admin != "" && !m.closed {
      PruneKeeps(m, now);
      CancelActiveKeeps(Pruned(m, now), admin, now);
      AddKeeps(CancelActive(Pruned(m, now), admin, now), admin, state, verifier, now);
    }
  }

  lemma AddKeeps(p: Manager, admin: string, state: string, verifier: string, now: int)
    requires Inv(p) && !p.closed && state != ""
    requires forall h :: 0 <= h < |p.store| ==> p.store[h].state != state
    requires forall h :: 0 <= h < |p.store| && p.store[h].admin == admin ==> !Cancelable(p.store[h])
    ensures Inv(Manager(p.store + [NewSession(state, admin, verifier, now)],
                        p.sessions[state := |p.store|], p.activeById[admin := state], p.closed, p.toCancel))
  {
    var s := NewSession(state, admin, verifier, now);
    var n := Manager(p.store + [s], p.sessions[state := |p.store|], p.activeById[admin := state], p.closed, p.toCancel);
    assert Sound(s) && Cancelable(s);
    hide Sound, Cancelable;
    assert n.store[|p.store|] == s;
    assert AllSound(n);
    assert Tables(n);
    hide AllSound, Tables;
    forall h | 0 <= h < |n.store| && Cancelable(n.store[h]) ensures Current(n, h) {
      if h < |p.store| { assert Current(p, h); }
    }
    forall who | who in n.activeById ensures exists h :: 0 <= h < |n.store| && Points(n, who, h) {
      if who == admin {
        assert Points(n, who, |p.store|);
      } else {
        var h :| 0 <= h < |p.store| && Points(p, who, h);
        assert Points(n, who, h);
      }
    }
  }

  lemma CallbackKeeps(m: Manager, admin: string, input: string, now: int)
    requires Inv(m)
    ensures Inv(CallbackStep(m, admin, input, now))
  {
    hide Pruned, TrimSpace, Tables, Active;
    PruneKeeps(m, now);
    var p := Pruned(m, now);
    var h := CallbackTarget(p, admin, input);
    if h.Some? && p.store[h.value].status == Pending {
      assert Sound(p.store[h.value]);
      ReplaceKeeps(p, h.value, p.store[h.value].(status := Processing, handler := Exchanging));
    }
  }

  lemma PutTwice(m: Manager, h: nat, s: Session, t: Session)
    requires h < |m.store|
    ensures Put(Put(m, h, s), h, t) == Put(m, h, t)
  {
  }

  lemma HandlerStepKeeps(m: Manager, step: Step)
    requires Inv(m) && Enabled(m, step)
    requires step.Exchange? || step.ExchangeFailed? || step.BeginCommit? || step.CallCommit? || step.EndCommit?
    ensures Inv(Do(m, step))
  {
    hide Tables, Active;
    var h, s := step.h, m.store[step.h];
    assert Sound(s);
    match step
    case Exchange(_, failure) =>
      ReplaceKeeps(m, h, s.(handler := Exchanged(failure), failure := failure, exchanges := s.exchanges + 1));
    case CallCommit(_, answer) =>
      ReplaceKeeps(m, h, s.(handler := Committed(answer), answer := Some(answer), commits := s.commits + 1));
    case BeginCommit(_) =>
      if s.status == Cancelled || s.contextDone { ReplaceKeeps(m, h, s.(handler := Returned)); }
      else { RetireKeeps(m, h, s.(status := Committing, verifier := "", handler := CommitCalled)); }
    case ExchangeFailed(_, now) =>
      var error := s.handler.failure.value;
      var t := s.(handler := Returned);
      if s.status == Cancelled { ReplaceKeeps(m, h, t); }
      else {
        PutTwice(m, h, t, Ended(t, Failed, error, 0, now));
        RetireKeeps(m, h, Ended(t, Failed, error, 0, now));
      }
    case EndCommit(_, now) =>
      var t := s.(handler := Returned);
      var e := if s.handler.answer.Created? then Ended(t, Complete, "", s.handler.answer.channelId, now)
               else Ended(t, Failed, s.handler.answer.error, 0, now);
      PutTwice(m, h, t, e);
      RetireKeeps(m, h, e);
  }

  lemma CloseKeeps(m: Manager)
    requires Inv(m)
    ensures Inv(CloseStep(m))
  {
    if !m.closed {
      hide Active, Tables, Registered;
      var c := CloseStep(m);
      forall h | 0 <= h < |m.store| ensures Sound(c.store[h]) && c.store[h].state == m.store[h].state {
        assert Sound(m.store[h]);
      }
      ClosedIs(m);
      ClosedTables(m, c);
      NothingActive(c);
    }
  }

  lemma ClosedIs(m: Manager)
    requires !m.closed
    ensures CloseStep(m).closed && CloseStep(m).activeById == map[] && CloseStep(m).sessions == map[]
  {
  }

  lemma NothingActive(c: Manager)
    requires c.closed && c.activeById == map[]
    ensures Active(c)
  {
  }

  lemma ClosedTables(m: Manager, c: Manager)
    requires Tables(m) && |c.store| == |m.store| && c.closed && c.sessions == map[] && c.activeById == map[]
    requires forall h :: 0 <= h < |m.store| ==> c.store[h].state == m.store[h].state
    ensures Tables(c)
  {
  }

  lemma ContextDoneSound(s: Session)
    requires Sound(s)
    ensures Sound(s.(contextDone := true)) && Cancelable(s.(contextDone := true)) == Cancelable(s)
  {
  }

  lemma CancelContextKeeps(m: Manager, h: nat)
    requires Inv(m) && h < |m.store|
    ensures Inv(CancelContextStep(m, h))
  {
    hide Sound, Cancelable, Tables, Active;
    ContextDoneSound(m.store[h]);
    SameShape(m, CancelContextStep(m, h));
  }

  lemma ShutdownKeeps(m: Manager)
    requires Inv(m)
    ensures Inv(Do(m, Shutdown))
  {
    hide Sound, Cancelable, Tables, Active;
    var d := Do(m, Shutdown);
    forall h | 0 <= h < |m.store|
      ensures Sound(d.store[h]) && Cancelable(d.store[h]) == Cancelable(m.store[h]) &&
          SameIdentity(d.store[h], m.store[h])
    {
      ContextDoneSound(m.store[h]);
    }
    SameShape(m, d);
  }

  lemma StepKeeps(m: Manager, step: Step)
    requires Inv(m) && Enabled(m, step)
    ensures Inv(Do(m, step))
  {
    hide Inv, Pruned, CancelActive, StartStep, CallbackStep, CloseStep;
    match step
    case Start(adminInput, state, verifier, now) => StartKeeps(m, adminInput, state, verifier, now);
    case Callback(admin, input, now) => CallbackKeeps(m, admin, input, now);
    case Cancel(admin, state, now) => CancelKeeps(m, admin, state, now);
    case CancelByAdmin(admin, now) => CancelActiveKeeps(m, TrimSpace(admin), now);
    case Prune(now) => PruneKeeps(m, now);
    case Shutdown => ShutdownKeeps(m);
    case Close => CloseKeeps(m);
    case CancelContext(h) => CancelContextKeeps(m, h);
    case _ => HandlerStepKeeps(m, step);
  }

  lemma CancelKeeps(m: Manager, admin: string, state: string, now: int)
    requires Inv(m)
    ensures Inv(CancelStep(m, admin, state, now))
  {
    hide TrimSpace;
    var h := CancelTarget(m, admin, state);
    if h.Some? && Cancelable(m.store[h.value]) {
      assert Sound(m.store[h.value]);
      FinishKeeps(m, h.value, Cancelled, "", 0, now);
    }
  }

  // ---- whole runs ----------------------------------------------------------------------------

  function Run(m: Manager, steps: seq<Step>): Option<Manager>
    decreases |steps|
  {
    if steps == [] then Some(m)
    else
      var before, step := Run(m, steps[..|steps| - 1]), steps[|steps| - 1];
      if before.Some? && Enabled(before.value, step) then Some(Do(before.value, step)) else None
  }

  lemma EmptyInv()
    ensures Inv(EMPTY)
  {
  }

  lemma {:induction false} RunInv(m: Manager, steps: seq<Step>)
    requires Inv(m) && Run(m, steps).Some?
    ensures Inv(Run(m, steps).value)
    decreases |steps|
  {
    hide Inv, Enabled, Do;
    if steps != [] {
      RunInv(m, steps[..|steps| - 1]);
      StepKeeps(Run(m, steps[..|steps| - 1]).value, steps[|steps| - 1]);
    }
  }

  /** In every run each session's code is exchanged at most once and its credential committed at most
      once, a complete session was committed, a cancelled one was not, and the verifier is kept only
      while the session is pending or processing. */
  lemma OneExchangeOneCommit(steps: seq<Step>, h: nat)
    requires Run(EMPTY, steps).Some? && h < |Run(EMPTY, steps).value.store|
    ensures var s := Run(EMPTY, steps).value.store[h];
      && s.commits <= s.exchanges <= 1
      && (s.status == Complete ==> s.commits == 1) && (s.status == Cancelled ==> s.commits == 0)
      && (s.verifier != "" ==> s.status in {Pending, Processing})
  {
    hide Run;
    EmptyInv();
    RunInv(EMPTY, steps);
    assert Sound(Run(EMPTY, steps).value.store[h]);
  }

  /** While the manager is open, an admin has at most one pending or processing session, and the active
      entry leads exactly to it. */
  lemma OneLiveSessionPerAdmin(steps: seq<Step>, h: nat, k: nat)
    requires Run(EMPTY, steps).Some? && !Run(EMPTY, steps).value.closed
    requires h < |Run(EMPTY, steps).value.store| && k < |Run(EMPTY, steps).value.store|
    requires Cancelable(Run(EMPTY, steps).value.store[h])
    ensures var m := Run(EMPTY, steps).value;
      && ActiveHandle(m, m.store[h].admin) == Some(h)
      && (Cancelable(m.store[k]) && m.store[k].admin == m.store[h].admin ==> h == k)
      && forall admin :: admin in m.activeById ==>
           ActiveHandle(m, admin).Some? && Cancelable(m.store[ActiveHandle(m, admin).value])
           && m.store[ActiveHandle(m, admin).value].admin == admin
  {
    hide Run, Sound, Cancelable;
    EmptyInv();
    RunInv(EMPTY, steps);
    var m := Run(EMPTY, steps).value;
    assert Current(m, h);
    if Cancelable(m.store[k]) { assert Current(m, k); }
    forall admin | admin in m.activeById
      ensures ActiveHandle(m, admin).Some? && Cancelable(m.store[ActiveHandle(m, admin).value]) &&
              m.store[ActiveHandle(m, admin).value].admin == admin
    {
      var j :| 0 <= j < |m.store| && Points(m, admin, j);
    }
  }

  /** A session that ended, by cancel, expiry or completion, without ever being committed. */
  predicate EndedUncommitted(s: Session) {
    Terminal(s) && s.commits == 0
  }

  predicate Absorbed(s: Session, t: Session) {
    && (s.status == Cancelled ==> t.status == Cancelled)
    && (s.status == Complete ==> t.status == Complete)
    && (EndedUncommitted(s) ==> EndedUncommitted(t))
    && SameIdentity(s, t)
  }

  lemma StartAbsorbs(m: Manager, adminInput: string, state: string, verifier: string, now: int, h: nat)
    requires h < |m.store| && Sound(m.store[h])
    ensures var n := StartStep(m, adminInput, state, verifier, now); h < |n.store| && Absorbed(m.store[h], n.store[h])
  {
    hide TrimSpace, Pruned, CancelActive, Absorbed, Sound;
    PrunedAbsorbs(m, h, now);
    CancelActiveAbsorbs(Pruned(m, now), TrimSpace(adminInput), now, h);
    var s, t := Pruned(m, now).store[h], CancelActive(Pruned(m, now), TrimSpace(adminInput), now).store[h];
    AbsorbedChain(m.store[h], s, t);
  }

  lemma AbsorbedChain(s: Session, t: Session, u: Session)
    ensures Absorbed(s, s)
    ensures Absorbed(s, t) && Absorbed(t, u) ==> Absorbed(s, u)
  {
  }

  lemma CallbackAbsorbs(m: Manager, admin: string, input: string, now: int, h: nat)
    requires h < |m.store| && Sound(m.store[h])
    ensures var n := CallbackStep(m, admin, input, now); h < |n.store| && Absorbed(m.store[h], n.store[h])
  {
    hide TrimSpace, Pruned;
    PrunedAbsorbs(m, h, now);
  }

  lemma CancelAbsorbs(m: Manager, admin: string, state: string, now: int, h: nat)
    requires h < |m.store|
    ensures var n := CancelStep(m, admin, state, now); h < |n.store| && Absorbed(m.store[h], n.store[h])
  {
    hide TrimSpace;
  }

  predicate HandlerStep(step: Step) {
    step.Exchange? || step.ExchangeFailed? || step.BeginCommit? || step.CallCommit? || step.EndCommit?
  }

  /** A handler's step changes its own session only. */
  lemma HandlerStepOnly(m: Manager, step: Step)
    requires Enabled(m, step) && HandlerStep(step)
    ensures step.h < |m.store| == |Do(m, step).store|
    ensures Do(m, step).store == m.store[step.h := Do(m, step).store[step.h]]
  {
    hide Inactive;
    if step.ExchangeFailed? || step.EndCommit? {
      PutTwice(m, step.h, m.store[step.h].(handler := Returned), Do(m, step).store[step.h]);
    }
  }

  lemma HandlerSessionAbsorbed(m: Manager, step: Step)
    requires Enabled(m, step) && HandlerStep(step) && step.h < |m.store| && Sound(m.store[step.h])
    ensures step.h < |Do(m, step).store| && Absorbed(m.store[step.h], Do(m, step).store[step.h])
  {
    hide Inactive;
  }

  lemma HandlerStepAbsorbs(m: Manager, step: Step, h: nat)
    requires Enabled(m, step) && HandlerStep(step) && h < |m.store| && Sound(m.store[h])
    ensures h < |Do(m, step).store| && Absorbed(m.store[h], Do(m, step).store[h])
  {
    HandlerStepOnly(m, step);
    hide Do, Enabled, Sound;
    if h == step.h { HandlerSessionAbsorbed(m, step); }
  }

  lemma StepAbsorbs(m: Manager, step: Step, h: nat)
    requires Inv(m) && Enabled(m, step) && h < |m.store|
    ensures h < |Do(m, step).store| && Absorbed(m.store[h], Do(m, step).store[h])
  {
    hide Tables, Active, Pruned, StartStep, CallbackStep, CancelActive, CancelStep, Sound;
    assert Sound(m.store[h]);
    match step
    case Start(adminInput, state, verifier, now) => StartAbsorbs(m, adminInput, state, verifier, now, h);
    case Callback(admin, input, now) => CallbackAbsorbs(m, admin, input, now, h);
    case Prune(now) => PrunedAbsorbs(m, h, now);
    case CancelByAdmin(admin, now) => CancelActiveAbsorbs(m, TrimSpace(admin), now, h);
    case Cancel(admin, state, now) => CancelAbsorbs(m, admin, state, now, h);
    case Shutdown =>
    case Close =>
    case CancelContext(_) =>
    case _ => HandlerStepAbsorbs(m, step, h);
  }

  lemma CancelActiveAbsorbs(p: Manager, admin: string, now: int, h: nat)
    requires h < |p.store| && Sound(p.store[h])
    ensures |CancelActive(p, admin, now).store| == |p.store| &&
        Absorbed(p.store[h], CancelActive(p, admin, now).store[h])
  {
  }

  lemma PrunedAbsorbs(m: Manager, h: nat, now: int)
    requires h < |m.store| && Sound(m.store[h])
    ensures |Pruned(m, now).store| == |m.store| && Absorbed(m.store[h], Pruned(m, now).store[h]) &&
        Sound(Pruned(m, now).store[h])
  {
    hide Lapsed, Forgotten, Registered;
  }

  /** Cancelled and complete are final, and a session cancelled or expired before its commit is never
      committed later, whatever still happens. */
  lemma {:induction false} EndedStaysEnded(m: Manager, steps: seq<Step>, h: nat)
    requires Inv(m) && Run(m, steps).Some? && h < |m.store|
    ensures h < |Run(m, steps).value.store| && Absorbed(m.store[h], Run(m, steps).value.store[h])
    decreases |steps|
  {
    hide Inv, Enabled, Do;
    if steps != [] {
      var front := steps[..|steps| - 1];
      EndedStaysEnded(m, front, h);
      RunInv(m, front);
      StepAbsorbs(Run(m, front).value, steps[|steps| - 1], h);
    }
  }
}
