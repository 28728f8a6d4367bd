/** The session manager as an object: its methods carry out the steps of the session machine. */
module XaiManager {
  import opened Names
  import opened Seqs
  import opened XaiSessions
  import opened XaiSessionsLaws

  // ---- one table entry at a time -------------------------------------------------------------

  /** The manager when only the entries in `visited` were looked at. */
  function PrunedOf(m: Manager, visited: set<string>, now: int): Manager {
    Manager(seq(|m.store|, h requires 0 <= h < |m.store| =>
              if m.store[h].state in visited then PrunedSession(m, h, now) else m.store[h]),
            map state | state in m.sessions && !(state in visited && Forgotten(m, state, now)) :: m.sessions[state],
            map admin | admin in m.activeById && !(m.activeById[admin] in visited && Lapsed(m, admin, now)) ::
                m.activeById[admin],
            m.closed, m.toCancel)
  }

  lemma PrunedOfNothing(m: Manager, now: int)
    ensures PrunedOf(m, {}, now) == m
  {
    hide PrunedSession, Forgotten, Lapsed;
  }

  lemma PrunedOfAll(m: Manager, visited: set<string>, now: int)
    requires visited == m.sessions.Keys
    ensures PrunedOf(m, visited, now) == Pruned(m, now)
  {
    hide Forgotten;
    var a, b := PrunedOf(m, visited, now), Pruned(m, now);
    assert a.store == b.store;
    forall admin | admin in m.activeById ensures Lapsed(m, admin, now) ==> m.activeById[admin] in visited {}
    hide Lapsed;
    assert a.activeById == b.activeById;
    assert a.sessions == b.sessions;
  }

  /** Visiting one more entry ends its session if it is overdue, and forgets it if it ended long ago. */
  lemma Visit(m: Manager, visited: set<string>, now: int, state: string)
    requires Tables(m) && state in m.sessions && state !in visited
    ensures var h, p, n := m.sessions[state], PrunedOf(m, visited, now), PrunedOf(m, visited + {state}, now);
      && h < |p.store| && p.store[h] == m.store[h] && p.store[h].state == state && state in p.sessions &&
          p.sessions[state] == h
      && (Overdue(m.store[h], now) ==> n == Finish(p, h, Failed, EXPIRED, 0, now))
      && (!Overdue(m.store[h], now) && Stale(m.store[h], now) ==> n == p.(sessions := p.sessions - {state}))
      && (!Overdue(m.store[h], now) && !Stale(m.store[h], now) ==> n == p)
  {
    hide Overdue, Stale, Inactive;
    var h, s := m.sessions[state], m.store[m.sessions[state]];
    var p, n := PrunedOf(m, visited, now), PrunedOf(m, visited + {state}, now);
    VisitActive(m, visited, now, state);
    VisitStore(m, visited, now, state);
    OverdueIsNotStale(s, now);
    hide Lapsed;
    assert Overdue(s, now) || !Stale(s, now) ==> n.sessions == p.sessions;
    assert Stale(s, now) ==> n.sessions == p.sessions - {state};
  }

  lemma OverdueIsNotStale(s: Session, now: int)
    ensures Overdue(s, now) ==> !Stale(s, now)
  {
  }

  lemma VisitStore(m: Manager, visited: set<string>, now: int, state: string)
    requires Tables(m) && state in m.sessions && state !in visited
    ensures var h, p, n := m.sessions[state], PrunedOf(m, visited, now), PrunedOf(m, visited + {state}, now);
      n.store == if Overdue(m.store[h], now)
          then p.store[h := Ended(m.store[h], Failed, EXPIRED, 0, now)] else p.store
  {
    hide Overdue, Lapsed, Forgotten, Ended;
    var h := m.sessions[state];
    assert Registered(m, h);
  }

  lemma VisitActive(m: Manager, visited: set<string>, now: int, state: string)
    requires Tables(m) && state in m.sessions && state !in visited
    ensures var h, p, n := m.sessions[state], PrunedOf(m, visited, now), PrunedOf(m, visited + {state}, now);
      n.activeById == if Overdue(m.store[h], now) then Inactive(p.activeById, m.store[h]) else p.activeById
  {
    hide Overdue, PrunedSession, Forgotten;
    var h := m.sessions[state];
    var s, p, n := m.store[h], PrunedOf(m, visited, now), PrunedOf(m, visited + {state}, now);
    assert Registered(m, h);
    forall admin | admin in m.activeById && m.activeById[admin] == state
      ensures Lapsed(m, admin, now) <==> Overdue(s, now) && s.admin == admin
    {
      if Lapsed(m, admin, now) {
        var k :| 0 <= k < |m.store| && Registered(m, k) && Overdue(m.store[k], now) && m.store[k].admin == admin &&
                 m.store[k].state == m.activeById[admin];
        assert k == h;
      }
    }
    hide Lapsed;
  }

  /** A close that has still the entries in `left` to visit: verifiers wiped so far, contexts to cancel so far. */
  function WipedStore(m: Manager, left: set<string>): seq<Session> {
    seq(|m.store|, h requires 0 <= h < |m.store| =>
      if Registered(m, h) && m.store[h].state !in left then m.store[h].(verifier := "") else m.store[h])
  }

  function WipedHandles(m: Manager, left: set<string>): set<nat> {
    set h | 0 <= h < |m.store| && Registered(m, h) && m.store[h].state !in left
  }

  lemma WipedNothing(m: Manager)
    ensures WipedStore(m, m.sessions.Keys) == m.store && WipedHandles(m, m.sessions.Keys) == {}
  {
  }

  lemma WipeOne(m: Manager, left: set<string>, state: string)
    requires Tables(m) && state in m.sessions && state in left
    ensures var h, before := m.sessions[state], WipedStore(m, left);
      && h < |before| && WipedStore(m, left - {state}) == before[h := before[h].(verifier := "")]
      && WipedHandles(m, left - {state}) == WipedHandles(m, left) + {h}
  {
    var h := m.sessions[state];
    assert Registered(m, h);
    forall k | 0 <= k < |m.store| && k != h ensures m.store[k].state != state {}
  }

  lemma CloseWipes(m: Manager)
    ensures CloseStep(m) ==
      if m.closed then m else Manager(WipedStore(m, {}), map[], map[], true, WipedHandles(m, {}))
  {
    hide Registered;
    if !m.closed {
      assert CloseStep(m).store == WipedStore(m, {});
      assert CloseStep(m).toCancel == WipedHandles(m, {});
    }
  }

  // ---- the object ----------------------------------------------------------------------------

  class SessionManager {
    /** The session objects; `sessions` and `activeById` lead to them. */
    var store: seq<Session>
    var sessions: map<string, nat>
    var activeById: map<string, string>
    var closed: bool
    var toCancel: set<nat>

    ghost function Value(): Manager
      reads this
    {
      Manager(store, sessions, activeById, closed, toCancel)
    }

    constructor ()
      ensures Value() == EMPTY
    {
      store, sessions, activeById, closed, toCancel := [], map[], map[], false, {};
    }

    method FinishSession(h: nat, status: Status, error: string, channelId: int, now: int)
      requires h < |store|
      modifies this`store, this`activeById
      ensures Value() == Finish(old(Value()), h, status, error, channelId, now)
    {
      var s := store[h];
      store := store[h := s.(status := status, error := error, channelId := channelId, verifier := "",
                             finishedAt := Some(now), contextDone := true)];
      if s.admin in activeById && activeById[s.admin] == s.state {
        activeById := activeById - {s.admin};
      }
    }

    method PruneExpired(now: int)
      requires Inv(Value())
      modifies this
      ensures Value() == Pruned(old(Value()), now) && Inv(Value())
    {
      hide Pruned, PrunedOf, Overdue, Stale, Finish, AllSound, Active, Tables;
      ghost var was := Value();
      var left := sessions.Keys;
      PrunedOfNothing(was, now);
      assert was.sessions.Keys - left == {};
      while left != {}
        invariant left <= was.sessions.Keys
        invariant Value() == PrunedOf(was, was.sessions.Keys - left, now)
        decreases |left|
      {
        var state :| state in left;
        Visit(was, was.sessions.Keys - left, now, state);
        assert was.sessions.Keys - (left - {state}) == was.sessions.Keys - left + {state};
        left := left - {state};
        var h := sessions[state];
        if Overdue(store[h], now) {
          FinishSession(h, Failed, EXPIRED, 0, now);
        } else if Stale(store[h], now) {
          sessions := sessions - {state};
        }
      }
      assert was.sessions.Keys - {} == was.sessions.Keys;
      PrunedOfAll(was, was.sessions.Keys, now);
      PruneKeeps(was, now);
    }

    method CancelByAdmin(admin: string, now: int)
      requires Inv(Value())
      modifies this
      ensures Value() == CancelActive(old(Value()), TrimSpace(admin), now) && Inv(Value())
    {
      hide TrimSpace, Finish, Inv;
      CancelActiveKeeps(Value(), TrimSpace(admin), now);
      var key := TrimSpace(admin);
      if key !in activeById || activeById[key] !in sessions {
        return;
      }
      var h := sessions[activeById[key]];
      InTable(Value(), activeById[key]);
      if store[h].status == Pending || store[h].status == Processing {
        FinishSession(h, Cancelled, "", 0, now);
      }
    }

    method Start(adminInput: string, state: string, verifier: string, now: int) returns (ok: bool)
      requires Inv(Value()) && Enabled(Value(), XaiSessions.Start(adminInput, state, verifier, now))
      modifies this
      ensures ok <==> TrimSpace(adminInput) != "" && !old(closed)
      ensures Value() == StartStep(old(Value()), adminInput, state, verifier, now) && Inv(Value())
    {
      hide TrimSpace, Inv, Pruned, CancelActive;
      StartKeeps(Value(), adminInput, state, verifier, now);
      var admin := TrimSpace(adminInput);
      if admin == "" || closed {
        return false;
      }
      PruneExpired(now);
      TrimmedOnce(adminInput);
      CancelByAdmin(admin, now);
      store := store + [NewSession(state, admin, verifier, now)];
      sessions := sessions[state := |store| - 1];
      activeById := activeById[admin := state];
      ok := true;
    }

    /** The first critical section of a callback: the session to exchange the code for, if any. */
    method TakeCallback(admin: string, input: string, now: int) returns (taken: Option<nat>)
      requires Inv(Value())
      modifies this
      ensures Value() == CallbackStep(old(Value()), admin, input, now) && Inv(Value())
      ensures taken.Some? <==> var p := Pruned(old(Value()), now);
                CallbackTarget(p, admin, input).Some? &&
                    p.store[CallbackTarget(p, admin, input).value].status == Pending
      ensures taken.Some? ==> taken.value < |store| && store[taken.value].status == Processing &&
                              store[taken.value].handler == Exchanging
    {
      hide TrimSpace, Inv, Pruned;
      CallbackKeeps(Value(), admin, input, now);
      PruneExpired(now);
      var state := TrimSpace(input);
      if state == "" {
        state := if TrimSpace(admin) in activeById then activeById[TrimSpace(admin)] else "";
      }
      if state !in sessions {
        return None;
      }
      var h := sessions[state];
      InTable(Value(), state);
      if store[h].admin != TrimSpace(admin) || store[h].status != Pending {
        return None;
      }
      store := store[h := store[h].(status := Processing, handler := Exchanging)];
      taken := Some(h);
    }

    /** The critical section after a failed exchange. */
    method RejectExchange(h: nat, now: int)
      requires Inv(Value()) && Enabled(Value(), ExchangeFailed(h, now))
      modifies this
      ensures Value() == ExchangeFailedStep(old(Value()), h, now) && Inv(Value())
      ensures if old(store)[h].status == Cancelled then store[h].status == Cancelled
              else store[h].status == Failed && Some(store[h].error) == old(store)[h].failure
    {
      hide Inv, Finish;
      HandlerStepKeeps(Value(), ExchangeFailed(h, now));
      RejectedEnd(Value(), h, now);
      var cancelled, error := store[h].status == Cancelled, store[h].handler.failure.value;
      store := store[h := store[h].(handler := Returned)];
      if !cancelled {
        FinishSession(h, Failed, error, 0, now);
      }
    }

    /** The critical section before the commit: a session that ended meanwhile is let go. */
    method EnterCommit(h: nat) returns (ok: bool)
      requires Inv(Value()) && Enabled(Value(), BeginCommit(h))
      modifies this
      ensures Value() == BeginCommitStep(old(Value()), h) && Inv(Value())
      ensures ok <==> store[h].handler == CommitCalled
      ensures Terminal(old(store)[h]) ==> !ok
    {
      hide Inv;
      HandlerStepKeeps(Value(), BeginCommit(h));
      var s := store[h];
      SoundAt(Value(), h);
      if s.status == Cancelled || s.contextDone {
        store := store[h := s.(handler := Returned)];
        return false;
      }
      store := store[h := s.(status := Committing, verifier := "", handler := CommitCalled)];
      if s.admin in activeById && activeById[s.admin] == s.state {
        activeById := activeById - {s.admin};
      }
      ok := true;
    }

    /** The last critical section. */
    method LeaveCommit(h: nat, now: int)
      requires Inv(Value()) && Enabled(Value(), EndCommit(h, now))
      modifies this
      ensures Value() == EndCommitStep(old(Value()), h, now) && Inv(Value())
      ensures match old(store)[h].handler.answer
              case Created(channelId) =>
                store[h].status == Complete && store[h].channelId == channelId && store[h].error == ""
              case Refused(error) => store[h].status == Failed && store[h].channelId == 0 && store[h].error == error
    {
      hide Inv, Finish;
      HandlerStepKeeps(Value(), EndCommit(h, now));
      CommittedEnd(Value(), h, now);
      var answer := store[h].handler.answer;
      store := store[h := store[h].(handler := Returned)];
      if answer.Created? {
        FinishSession(h, Complete, "", answer.channelId, now);
      } else {
        FinishSession(h, Failed, answer.error, 0, now);
      }
    }

    method Cancel(admin: string, state: string, now: int) returns (ok: bool)
      requires Inv(Value())
      modifies this
      ensures Value() == CancelStep(old(Value()), admin, state, now) && Inv(Value())
      ensures ok <==> CancelTarget(old(Value()), admin, state).Some? &&
                      Cancelable(old(store)[CancelTarget(old(Value()), admin, state).value])
      ensures ok ==> store[CancelTarget(old(Value()), admin, state).value].status == Cancelled
    {
      hide TrimSpace, Inv;
      CancelKeeps(Value(), admin, state, now);
      var key := TrimSpace(state);
      if key !in sessions {
        return false;
      }
      var h := sessions[key];
      InTable(Value(), key);
      if store[h].admin != TrimSpace(admin) || !(store[h].status == Pending || store[h].status == Processing) {
        return false;
      }
      FinishSession(h, Cancelled, "", 0, now);
      ok := true;
    }

    /** The part of a close under the lock: it happens once. */
    method Close()
      requires Inv(Value())
      modifies this
      ensures Value() == CloseStep(old(Value())) && Inv(Value())
    {
      hide Active, AllSound, Tables, WipedStore, WipedHandles, Registered, CloseStep;
      CloseKeeps(Value());
      CloseWipes(Value());
      if closed {
        return;
      }
      ghost var was := Value();
      closed := true;
      var cancels: set<nat> := {};
      var left := sessions.Keys;
      WipedNothing(was);
      while left != {}
        invariant closed && left <= was.sessions.Keys && sessions == was.sessions
        invariant store == WipedStore(was, left) && cancels == WipedHandles(was, left)
        decreases |left|
      {
        var state :| state in left;
        WipeOne(was, left, state);
        left := left - {state};
        var h := sessions[state];
        store := store[h := store[h].(verifier := "")];
        cancels := cancels + {h};
      }
      sessions, activeById, toCancel := map[], map[], cancels;
    }

    /** The rest of a close, outside the lock; other steps may fall between any two of these. */
    method CancelContext(h: nat)
      requires Inv(Value()) && Enabled(Value(), XaiSessions.CancelContext(h))
      modifies this
      ensures Value() == CancelContextStep(old(Value()), h) && Inv(Value())
    {
      hide Inv;
      CancelContextKeeps(Value(), h);
      store := store[h := store[h].(contextDone := true)];
      toCancel := toCancel - {h};
    }
  }

  lemma RejectedEnd(m: Manager, h: nat, now: int)
    requires Inv(m) && Enabled(m, ExchangeFailed(h, now))
    ensures var s, t := m.store[h], ExchangeFailedStep(m, h, now).store[h];
      if s.status == Cancelled then t.status == Cancelled else t.status == Failed && Some(t.error) == s.failure
  {
    hide Tables, Active;
    assert Sound(m.store[h]);
  }

  lemma CommittedEnd(m: Manager, h: nat, now: int)
    requires Enabled(m, EndCommit(h, now))
    ensures var t := EndCommitStep(m, h, now).store[h];
      match m.store[h].handler.answer
      case Created(channelId) => t.status == Complete && t.channelId == channelId && t.error == ""
      case Refused(error) => t.status == Failed && t.channelId == 0 && t.error == error
  {
  }

  lemma InTable(m: Manager, state: string)
    requires Inv(m) && state in m.sessions
    ensures m.sessions[state] < |m.store| && m.store[m.sessions[state]].state == state
  {
  }

  lemma SoundAt(m: Manager, h: nat)
    requires Inv(m) && h < |m.store|
    ensures Terminal(m.store[h]) ==> m.store[h].contextDone
  {
    assert Sound(m.store[h]);
  }

  lemma TrimmedOnce(s: string)
    ensures TrimSpace(TrimSpace(s)) == TrimSpace(s)
  {
  }
}
