/** The browser-login manager as an object: its critical sections carry out the steps of the machine. */
module CodexManager {
  import opened Names
  import opened Seqs
  import opened CodexSessions

  class LoginManager {
    var store: seq<Session>
    var sessions: map<string, nat>
    var active: Option<nat>
    /** Who holds the start lock. */
    ghost var starter: Starter

    ghost function Value(): Manager
      reads this
    {
      Manager(store, sessions, active, starter)
    }

    constructor ()
      ensures Value() == EMPTY
    {
      store, sessions, active, starter := [], map[], None, Idle;
    }

    method PruneLocked(now: int)
      requires Inv(Value())
      modifies this`sessions
      ensures Value() == Pruned(old(Value()), now) && Inv(Value())
    {
      hide Sound, Stale, Active;
      ghost var was := Value();
      var left := sessions.Keys;
      while left != {}
        invariant left <= was.sessions.Keys
        invariant forall state :: state in sessions <==>
            state in was.sessions && (state in left || Kept(was, state, now))
        invariant forall state :: state in sessions ==> sessions[state] == was.sessions[state]
        decreases |left|
      {
        var state :| state in left;
        left := left - {state};
        if Stale(store[sessions[state]], now) {
          sessions := sessions - {state};
        }
      }
      assert sessions == Pruned(was, now).sessions;
      PruneKeeps(was, now);
    }

    /** Accepts the first callback of a pending login. */
    method DeliverCallback(h: nat, result: Result) returns (ok: bool)
      requires Inv(Value()) && h < |store|
      modifies this`store
      ensures Value() == DeliverStep(old(Value()), h, result) && Inv(Value())
      ensures ok <==> Receivable(old(Value()), h) && !old(store)[h].callbackReceived
    {
      hide Inv;
      DeliverKeeps(Value(), h, result);
      NoFullBuffer(Value(), h);
      var s := store[h];
      if s.status != Pending || s.state !in sessions || sessions[s.state] != h {
        return false;
      }
      if s.callbackReceived {
        return false;
      }
      store := store[h := s.(callbackReceived := true, buffer := Some(result), callback := Some(result),
                                accepted := s.accepted + 1)];
      ok := true;
    }

    /** Cancels a pending login; `force` takes any other one too. The caller then cancels the context, in a step
        of its own, and stops the listener. */
    method CancelSession(input: string, force: bool, now: int) returns (answer: CancelAnswer)
      requires Inv(Value())
      modifies this`store, this`sessions, this`active
      ensures Value() == CancelStep(old(Value()), input, force, now) && Inv(Value())
      ensures answer == CancelAnswerOf(old(Value()), input, force, now)
    {
      hide Inv, TrimSpace;
      CancelKeeps(Value(), input, force, now);
      PruneLocked(now);
      var state := TrimSpace(input);
      if state !in sessions {
        return NotFound;
      }
      var h := sessions[state];
      InTable(Value(), state);
      if store[h].status == Cancelled {
        return Stopped;
      }
      if !force && store[h].status != Pending {
        return NotCancellable;
      }
      store := store[h := store[h].(status := Cancelled, error := "", finishedAt := Some(now), callbackReceived := true,
                                    forced := store[h].forced || PastCommit(store[h]))];
      if active == Some(h) {
        active := None;
      }
      answer := Stopped;
    }

    /** The last critical section of a start; the login seen before was cancelled by now. */
    method Create(now: int, state: string, prepared: bool) returns (created: bool)
      requires Inv(Value()) && Enabled(Value(), StartCreates(now, state, prepared))
      modifies this
      ensures Value() == StartCreatesStep(old(Value()), now, state, prepared) && Inv(Value())
      ensures created <==> old(active).None? && prepared
    {
      hide Inv;
      CreateKeeps(Value(), now, state, prepared);
      PruneLocked(now);
      starter := Idle;
      if active.Some? || !prepared {
        return false;
      }
      store := store + [NewSession(state)];
      sessions := sessions[state := |store| - 1];
      active := Some(|store| - 1);
      created := true;
    }

    /** The status check before the commit. */
    method Decide(h: nat) returns (commits: bool)
      requires Inv(Value()) && Enabled(Value(), CodexSessions.Decide(h))
      modifies this`store
      ensures Value() == DecideStep(old(Value()), h) && Inv(Value())
      ensures commits <==> old(store)[h].status != Cancelled
    {
      hide Inv;
      RoutineKeeps(Value(), CodexSessions.Decide(h));
      if store[h].status == Cancelled {
        store := store[h := store[h].(routine := Ending("cancelled", 0))];
        return false;
      }
      store := store[h := store[h].(status := Committing, routine := CommitCalled)];
      commits := true;
    }

    /** The completion routine's last critical section. */
    method End(h: nat, now: int) returns (invalidate: bool)
      requires Inv(Value()) && Enabled(Value(), CodexSessions.End(h, now))
      modifies this`store, this`active
      ensures Value() == EndStep(old(Value()), h, now) && Inv(Value())
      ensures invalidate <==> old(store)[h].status != Cancelled && old(store)[h].routine.error == ""
      ensures h < |store| && store[h].routine.Done? && store[h].finishedAt == Some(now)
      ensures old(store)[h].status != Cancelled && old(store)[h].routine.error != "" ==>
        store[h].status == Failed && store[h].error == old(store)[h].routine.error
      ensures invalidate ==> store[h].status == Complete && store[h].channelId == old(store)[h].routine.channelId
      ensures old(store)[h].status == Cancelled ==> store[h].status == Cancelled
    {
      hide Inv;
      RoutineKeeps(Value(), CodexSessions.End(h, now));
      var s := store[h];
      var cancelled, error := s.status == Cancelled, s.routine.error;
      if !cancelled && s.routine.error != "" {
        s := s.(status := Failed, error := s.routine.error);
      } else if !cancelled {
        s := s.(status := Complete, channelId := s.routine.channelId);
      }
      store := store[h := s.(finishedAt := Some(now), routine := Done)];
      if active == Some(h) {
        active := None;
      }
      invalidate := !cancelled && error == "";
    }
  }

  lemma InTable(m: Manager, state: string)
    requires Inv(m) && state in m.sessions
    ensures m.sessions[state] < |m.store| && m.store[m.sessions[state]].state == state
  {
  }

  lemma NoFullBuffer(m: Manager, h: nat)
    requires Inv(m) && h < |m.store|
    ensures !m.store[h].callbackReceived ==> m.store[h].buffer.None?
  {
    assert Sound(m.store[h]);
  }
}
