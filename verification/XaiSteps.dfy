/** What the steps that look a session up do to it, and that they leave the others alone. */
module XaiSteps {
  import opened Names
  import opened Seqs
  import opened XaiSessions
  import opened XaiSessionsLaws

  /** Registered, still pending or processing, and older than half an hour. */
  predicate Expires(m: Manager, h: nat, now: int) {
    && h < |m.store| && m.store[h].state in m.sessions && m.sessions[m.store[h].state] == h
    && m.store[h].status in {Pending, Processing} && m.store[h].finishedAt.None? && now - m.store[h].createdAt > 1800
  }

  /** The state leads to a session that did not end more than two minutes ago. */
  predicate Remembered(m: Manager, state: string, now: int) {
    && state in m.sessions && m.sessions[state] < |m.store|
    && (m.store[m.sessions[state]].finishedAt.Some? ==> now - m.store[m.sessions[state]].finishedAt.value <= 120)
  }

  /** Pruning fails exactly the sessions whose time is over, and forgets exactly those that ended long ago. */
  lemma PruneTells(m: Manager, now: int)
    requires Inv(m)
    ensures |Pruned(m, now).store| == |m.store|
    ensures forall h :: 0 <= h < |m.store| ==>
      if Expires(m, h, now) then
        var s := Pruned(m, now).store[h];
        s.status == Failed && s.error == "xAI OAuth session expired" && s.verifier == "" && s.contextDone &&
        s.finishedAt == Some(now)
      else Pruned(m, now).store[h] == m.store[h]
    ensures forall state :: state in Pruned(m, now).sessions <==> Remembered(m, state, now)
    ensures forall state :: state in Pruned(m, now).sessions ==> Pruned(m, now).sessions[state] == m.sessions[state]
  {
    hide Lapsed, Sound, Active;
  }

  /** The session a callback is for: the one its state leads to, or the admin's active one, if it is the admin's. */
  predicate CallsBack(m: Manager, admin: string, input: string, h: nat) {
    var state := if TrimSpace(input) != "" then TrimSpace(input)
                 else if TrimSpace(admin) in m.activeById then m.activeById[TrimSpace(admin)] else "";
    h < |m.store| && state in m.sessions && m.sessions[state] == h && m.store[h].admin == TrimSpace(admin)
  }

  /** A callback moves exactly the pending session it is for to processing, with a handler that exchanges; apart from
      what expires, every other session stays as it is. */
  lemma CallbackTells(m: Manager, admin: string, input: string, now: int, h: nat)
    requires Inv(m) && h < |m.store|
    ensures var p, after := Pruned(m, now), CallbackStep(m, admin, input, now);
      && |after.store| == |m.store| && after.sessions == p.sessions && after.activeById == p.activeById
      && (CallsBack(p, admin, input, h) && p.store[h].status == Pending ==>
            after.store[h] == p.store[h].(status := Processing, handler := Exchanging))
      && (!(CallsBack(p, admin, input, h) && p.store[h].status == Pending) ==> after.store[h] == p.store[h])
  {
    hide TrimSpace, Pruned, Sound, Active, Tables;
    PruneKeeps(m, now);
  }

  predicate Named(m: Manager, admin: string, state: string, h: nat) {
    && h < |m.store| && TrimSpace(state) in m.sessions && m.sessions[TrimSpace(state)] == h
    && m.store[h].admin == TrimSpace(admin)
  }

  predicate IsCancelled(before: Session, after: Session, now: int) {
    && after.status == Cancelled && after.error == "" && after.channelId == 0 && after.verifier == ""
    && after.contextDone && after.finishedAt == Some(now) && after.handler == before.handler
    && after.state == before.state && after.admin == before.admin
  }

  /** A cancel by state ends exactly the pending or processing session of that admin it names. */
  lemma CancelTells(m: Manager, admin: string, state: string, now: int, h: nat)
    requires Inv(m) && h < |m.store|
    ensures var after := CancelStep(m, admin, state, now);
      && |after.store| == |m.store|
      && (if Named(m, admin, state, h) && m.store[h].status in {Pending, Processing}
          then IsCancelled(m.store[h], after.store[h], now) else after.store[h] == m.store[h])
  {
    hide TrimSpace, Sound, Active, Tables, Inactive;
  }

  /** A cancel for an admin ends exactly the admin's pending or processing session, which an open manager has under
      the active entry. */
  lemma CancelActiveTells(m: Manager, admin: string, now: int, h: nat)
    requires Inv(m) && !m.closed && h < |m.store|
    ensures var after := CancelActive(m, admin, now);
      && |after.store| == |m.store|
      && (if m.store[h].admin == admin && m.store[h].status in {Pending, Processing}
          then IsCancelled(m.store[h], after.store[h], now) else after.store[h] == m.store[h])
      && (admin !in after.activeById || after.activeById[admin] == m.activeById[admin])
  {
    hide TrimSpace, Sound, Inactive;
    if m.store[h].admin == admin && Cancelable(m.store[h]) { assert Current(m, h); }
    if admin in m.activeById {
      var k :| 0 <= k < |m.store| && Points(m, admin, k);
    }
    assert admin in Finish(m, h, Cancelled, "", 0, now).activeById ==> admin in m.activeById by { FewerActive(m, h); }
    if ActiveHandle(m, admin).Some? { FewerActive(m, ActiveHandle(m, admin).value); }
  }

  lemma FewerActive(m: Manager, h: nat)
    requires h < |m.store|
    ensures forall a :: a in Inactive(m.activeById, m.store[h]) ==>
      a in m.activeById && Inactive(m.activeById, m.store[h])[a] == m.activeById[a]
  {
  }

  /** A start of an open manager, for a real admin, adds one pending session under the admin's active entry with its
      verifier and the time; the admin's older sessions are not live any more, and those of others only expire. */
  lemma StartTells(m: Manager, adminInput: string, state: string, verifier: string, now: int)
    requires Inv(m) && Enabled(m, Start(adminInput, state, verifier, now))
    ensures var admin, after := TrimSpace(adminInput), StartStep(m, adminInput, state, verifier, now);
            var p := Pruned(m, now);
      && (admin == "" || m.closed ==> after == m)
      && (admin != "" && !m.closed ==>
            && |after.store| == |m.store| + 1
            && after.store[|m.store|] ==
               Session(state, admin, verifier, Pending, "", 0, now, None, false, NoHandler, 0, 0, None, None)
            && state in after.sessions && after.sessions[state] == |m.store|
            && admin in after.activeById && after.activeById[admin] == state
            && forall h :: 0 <= h < |m.store| ==>
                 if m.store[h].admin == admin && p.store[h].status in {Pending, Processing}
                 then IsCancelled(p.store[h], after.store[h], now) else after.store[h] == p.store[h])
  {
    hide TrimSpace, Pruned, CancelActive, Inv, IsCancelled;
    var admin, p := TrimSpace(adminInput), Pruned(m, now);
    PruneKeeps(m, now);
    if admin != "" && !m.closed {
      CancelActiveKeeps(p, admin, now);
      var c := CancelActive(p, admin, now);
      forall h | 0 <= h < |m.store|
        ensures if m.store[h].admin == admin && p.store[h].status in {Pending, Processing}
                then IsCancelled(p.store[h], c.store[h], now) else c.store[h] == p.store[h]
      {
        CancelActiveTells(p, admin, now, h);
      }
    }
  }
}
