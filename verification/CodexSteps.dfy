/** What the critical sections of the browser-login manager do, told by the states logins are registered under. */
module CodexSteps {
  import opened Names
  import opened Seqs
  import opened CodexSessions

  /** The login is registered under its state, and did not finish more than ten minutes ago. */
  predicate Remembered(m: Manager, h: nat, now: int) {
    && h < |m.store| && m.store[h].state in m.sessions && m.sessions[m.store[h].state] == h
    && (m.store[h].finishedAt.Some? ==> now - m.store[h].finishedAt.value <= 600)
  }

  /** Pruning forgets exactly the logins that finished long ago, and changes none. */
  lemma PruneTells(m: Manager, now: int)
    requires Inv(m)
    ensures Pruned(m, now).store == m.store && Pruned(m, now).active == m.active
    ensures forall h :: 0 <= h < |m.store| ==>
      (Remembered(m, h, now) <==>
       m.store[h].state in Pruned(m, now).sessions && Pruned(m, now).sessions[m.store[h].state] == h)
    ensures forall state :: state in Pruned(m, now).sessions ==>
      state in m.sessions && Pruned(m, now).sessions[state] == m.sessions[state] &&
          Remembered(m, m.sessions[state], now)
  {
    hide Sound, Active;
  }

  /** A callback is accepted exactly by a registered pending login that had none, and then waits in its buffer. */
  lemma DeliverTells(m: Manager, h: nat, result: Result)
    requires Inv(m) && h < |m.store|
    ensures var s, after := m.store[h], DeliverStep(m, h, result);
      if s.status == Pending && Registered(m, h) && !s.callbackReceived
      then after == Put(m, h, s.(callbackReceived := true, buffer := Some(result), callback := Some(result),
                                 accepted := s.accepted + 1))
      else after == m
  {
    hide Tables, Active;
    assert Sound(m.store[h]);
  }

  predicate Meant(m: Manager, input: string, now: int, h: nat) {
    Remembered(m, h, now) && m.store[h].state == TrimSpace(input)
  }

  predicate IsCancelled(before: Session, after: Session, now: int) {
    && after.status == Cancelled && after.error == "" && after.finishedAt == Some(now) && after.callbackReceived
    && after.state == before.state && after.routine == before.routine && after.buffer == before.buffer
    && after.commits == before.commits && after.channelId == before.channelId
  }

  /** A cancel ends exactly the login it names, if that is pending, or not cancelled yet and the cancel is forced; it
      frees the active place of that login only, and its answer says which it was. */
  lemma CancelTells(m: Manager, input: string, force: bool, now: int, h: nat)
    requires Inv(m) && h < |m.store|
    ensures var s, after := m.store[h], CancelStep(m, input, force, now);
            var hit := Meant(m, input, now, h);
            var ends := hit && (s.status == Pending || (force && s.status != Cancelled));
      && |after.store| == |m.store|
      && (if ends then IsCancelled(s, after.store[h], now) else after.store[h] == s)
      && (ends ==> after.active == if m.active == Some(h) then None else m.active)
      && (hit ==> CancelAnswerOf(m, input, force, now) ==
                  if ends || s.status == Cancelled then Stopped else NotCancellable)
      && (after.active == m.active || after.active == None)
    ensures (forall k: nat :: !Meant(m, input, now, k)) ==>
      CancelAnswerOf(m, input, force, now) == NotFound && CancelStep(m, input, force, now).active == m.active
  {
    hide TrimSpace, Trimmed, Sound, Active, Pruned;
    PruneTells(m, now);
    var p := Pruned(m, now);
    var found := Find(p, input);
    if found.Some? {
      assert Meant(m, input, now, found.value);
    }
    if Meant(m, input, now, h) {
      assert found == Some(h);
    }
  }

  /** A start creates a pending login under its state, registered and active, exactly when none is active and its
      preparation succeeded; the others stay as they are. */
  lemma CreateTells(m: Manager, now: int, state: string, prepared: bool)
    requires Inv(m) && Enabled(m, StartCreates(now, state, prepared))
    ensures var after := StartCreatesStep(m, now, state, prepared);
      && after.starter == Idle
      && (if m.active.None? && prepared then
            && |after.store| == |m.store| + 1 && after.store[..|m.store|] == m.store
            && after.store[|m.store|] ==
               Session(state, Pending, "", 0, None, false, None, false, Waiting, 0, 0, 0, false, None, None, None)
            && state in after.sessions && after.sessions[state] == |m.store| && after.active == Some(|m.store|)
          else after.store == m.store && after.active == m.active)
  {
    hide Trimmed, Sound, Tables, Active;
    PrunedStore(m, now);
    hide Pruned;
  }

  /** A start that saw a login goes on only if its cancel stopped it and the listener let go. */
  lemma ReplaceTells(m: Manager, now: int, listenerStuck: bool, h: nat)
    requires Inv(m) && m.starter == Starting(Some(h)) && h < |m.store|
    ensures StartCancelsStep(m, now, listenerStuck).starter.Replaced? <==>
      Remembered(m, h, now) && m.store[h].status in {Pending, Cancelled} && !listenerStuck
    ensures !StartCancelsStep(m, now, listenerStuck).starter.Replaced? ==>
      StartCancelsStep(m, now, listenerStuck).starter == Idle
  {
    hide Inv, Pruned, CancelStep, CancelAnswerOf, TrimSpace, Meant;
    StateTrimmed(m, h);
    var input := StateOf(m, m.starter.seen);
    assert input == m.store[h].state;
    CancelTells(m, input, false, now, h);
    OnlyIt(m, now, h);
  }

  /** A registered login is the only one its state means. */
  lemma OnlyIt(m: Manager, now: int, h: nat)
    requires h < |m.store| && TrimSpace(m.store[h].state) == m.store[h].state
    ensures Meant(m, m.store[h].state, now, h) <==> Remembered(m, h, now)
    ensures !Remembered(m, h, now) ==> Inv(m) ==> forall k: nat :: !Meant(m, m.store[h].state, now, k)
  {
    hide TrimSpace, AllSound, Active;
  }

  lemma StateTrimmed(m: Manager, h: nat)
    requires Inv(m) && h < |m.store|
    ensures TrimSpace(m.store[h].state) == m.store[h].state
  {
    hide Tables, Active, TrimSpace;
    assert Sound(m.store[h]);
  }

  /** What a routine holds when it stops waiting: the buffered callback, or an error. */
  lemma WaitTells(m: Manager, step: Step)
    requires Enabled(m, step) && (step.Receive? || step.SeesCancel? || step.TimesOut?)
    ensures var s, t := m.store[step.h], Do(m, step).store[step.h];
      && t.routine.Holding? && t.status == s.status
      && (step.Receive? ==> s.buffer == Some(t.routine.result) && t.buffer.None?)
      && (!step.Receive? ==> t.routine.result.error != "" && t.buffer == s.buffer)
  {
  }
}
