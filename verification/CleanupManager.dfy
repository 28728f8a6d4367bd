/** The manager of cleanup jobs: one running job at a time, idempotency keys, and retention. */
module CleanupManager {
  import opened Seqs

  const MAX_RUNNING := 1
  const RETENTION_SECONDS := 3600

  datatype Selection = Selection(authType: string, model: string, action: string)

  datatype JobInfo = JobInfo(request: string, selection: Selection, completedAt: Option<int>)

  datatype Started = Started(id: string) | Closed | Busy | Conflict | NotFound

  datatype Manager = Manager(jobs: map<string, JobInfo>, requests: map<string, string>, running: int, closing: bool)

  // ---- operations on the manager's value -----------------------------------------------------

  predicate Expired(job: JobInfo, now: int) {
    job.completedAt.Some? && now - job.completedAt.value >= RETENTION_SECONDS
  }

  function ExpiredJobs(m: Manager, now: int): set<string> {
    set id | id in m.jobs && Expired(m.jobs[id], now)
  }

  function ExpiredRequests(m: Manager, now: int): set<string> {
    set id | id in ExpiredJobs(m, now) && m.jobs[id].request != "" :: m.jobs[id].request
  }

  function Evicted(m: Manager, now: int): Manager {
    m.(jobs := m.jobs - ExpiredJobs(m, now), requests := m.requests - ExpiredRequests(m, now))
  }

  /** What the key is already bound to; a key whose job is gone is forgotten. */
  function Lookup(m: Manager, request: string, selection: Selection): (Manager, Started) {
    if request !in m.requests then (m, NotFound)
    else if m.requests[request] !in m.jobs then (m.(requests := m.requests - {request}), NotFound)
    else if m.jobs[m.requests[request]].selection != selection then (m, Conflict)
    else (m, Started.Started(m.requests[request]))
  }

  function StartStep(m: Manager, now: int, shutdown: bool, id: string, request: string,
                     selection: Selection): (Manager, Started) {
    if m.closing || shutdown then (m, Closed)
    else
      var (kept, found) := Lookup(Evicted(m, now), request, selection);
      if !found.NotFound? then (kept, found)
      else if kept.running >= MAX_RUNNING then (kept, Busy)
      else (kept.(jobs := kept.jobs[id := JobInfo(request, selection, None)],
                  requests := if request != "" then kept.requests[request := id] else kept.requests,
                  running := kept.running + 1),
            Started.Started(id))
  }

  function StartForRequestStep(m: Manager, now: int, request: string, selection: Selection): (Manager, Started) {
    if request == "" then (m, NotFound) else Lookup(Evicted(m, now), request, selection)
  }

  function FinishStep(m: Manager, id: string, now: int): Manager
    requires id in m.jobs
  {
    m.(jobs := m.jobs[id := m.jobs[id].(completedAt := Some(now))], running := m.running - 1)
  }

  function CloseStep(m: Manager): Manager {
    m.(closing := true)
  }

  // ---- the invariant -------------------------------------------------------------------------

  function RunningJobs(m: Manager): set<string> {
    set id | id in m.jobs && m.jobs[id].completedAt.None?
  }

  /** The running count is exact and at most one; keys and the jobs that carry them match one to one. */
  ghost predicate Valid(m: Manager) {
    && m.running == |RunningJobs(m)| <= MAX_RUNNING
    && (forall r :: r in m.requests ==> r != "" && m.requests[r] in m.jobs && m.jobs[m.requests[r]].request == r)
    && (forall id :: id in m.jobs && m.jobs[id].request != "" ==>
                     m.jobs[id].request in m.requests && m.requests[m.jobs[id].request] == id)
  }

  lemma EvictedValid(m: Manager, now: int)
    requires Valid(m)
    ensures Valid(Evicted(m, now)) && RunningJobs(Evicted(m, now)) == RunningJobs(m)
  {
    hide Expired;
    var after := Evicted(m, now);
    assert RunningJobs(after) == RunningJobs(m) by { RunningNotExpired(m, now); }
    forall id | id in after.jobs && after.jobs[id].request != ""
      ensures after.jobs[id].request in after.requests && after.requests[after.jobs[id].request] == id
    {
      assert m.requests[m.jobs[id].request] == id;
    }
    forall id | id in ExpiredJobs(m, now) && m.jobs[id].request != ""
      ensures m.jobs[id].request in ExpiredRequests(m, now) {}
    forall r | r in after.requests
      ensures after.requests[r] in after.jobs && after.jobs[after.requests[r]].request == r
    {
      assert r !in ExpiredRequests(m, now);
    }
  }

  lemma RunningNotExpired(m: Manager, now: int)
    ensures RunningJobs(m) !! ExpiredJobs(m, now)
  {
  }

  /** A job is added under a key no job has, while none is running. */
  lemma AddValid(m: Manager, id: string, request: string, selection: Selection)
    requires Valid(m) && id !in m.jobs && request !in m.requests && m.running < MAX_RUNNING
    ensures var after := Manager(m.jobs[id := JobInfo(request, selection, None)],
                                 if request != "" then m.requests[request := id]
                                     else m.requests, m.running + 1, m.closing);
      Valid(after) && RunningJobs(m) == {} && RunningJobs(after) == {id}
  {
    var after := Manager(m.jobs[id := JobInfo(request, selection, None)],
                         if request != "" then m.requests[request := id] else m.requests, m.running + 1, m.closing);
    assert |RunningJobs(m)| == 0;
    assert RunningJobs(after) == RunningJobs(m) + {id};
  }

  lemma StartValid(m: Manager, now: int, shutdown: bool, id: string, request: string, selection: Selection)
    requires Valid(m) && id !in m.jobs
    ensures Valid(StartStep(m, now, shutdown, id, request, selection).0)
    ensures var after := StartStep(m, now, shutdown, id, request, selection).0;
      after == m || after == Evicted(m, now) ||
      (id in after.jobs && RunningJobs(m) == {} && RunningJobs(after) == {id})
  {
    hide Evicted, RunningJobs, Valid;
    if !m.closing && !shutdown {
      EvictedValid(m, now);
      EvictedSubset(m, now);
      LookupKeeps(Evicted(m, now), request, selection);
      var kept := Evicted(m, now);
      if Lookup(kept, request, selection).1.NotFound? && kept.running < MAX_RUNNING {
        LookupMisses(kept, request, selection);
        AddValid(kept, id, request, selection);
      }
    }
  }

  lemma LookupMisses(m: Manager, request: string, selection: Selection)
    requires Valid(m) && Lookup(m, request, selection).1.NotFound?
    ensures request !in m.requests
  {
  }

  lemma LookupKeeps(m: Manager, request: string, selection: Selection)
    requires Valid(m)
    ensures Lookup(m, request, selection).0 == m
  {
  }

  lemma EvictedSubset(m: Manager, now: int)
    ensures Evicted(m, now).jobs.Keys <= m.jobs.Keys
    ensures forall id :: id in Evicted(m, now).jobs ==> Evicted(m, now).jobs[id] == m.jobs[id]
    ensures Evicted(m, now).running == m.running && Evicted(m, now).closing == m.closing
  {
  }

  lemma FinishValid(m: Manager, id: string, now: int)
    requires Valid(m) && id in RunningJobs(m)
    ensures Valid(FinishStep(m, id, now))
  {
    var after := FinishStep(m, id, now);
    assert RunningJobs(after) == RunningJobs(m) - {id};
  }

  // ---- the object ----------------------------------------------------------------------------

  class CleanupManager {
    var jobs: map<string, JobInfo>
    var requests: map<string, string>
    var running: int
    var closing: bool

    ghost function Value(): Manager
      reads this
    {
      Manager(jobs, requests, running, closing)
    }

    constructor ()
      ensures Value() == FRESH && Valid(Value())
    {
      jobs, requests, running, closing := map[], map[], 0, false;
      new;
      assert RunningJobs(Value()) == {};
    }

    method EvictExpired(now: int)
      requires Valid(Value())
      modifies this`jobs, this`requests
      ensures Value() == Evicted(old(Value()), now) && Valid(Value())
    {
      hide Valid, ExpiredJobs, ExpiredRequests, Forgotten, Expired;
      var left := jobs.Keys;
      ghost var was := Value();
      VisitBounds(was, now);
      while left != {}
        invariant left <= was.jobs.Keys && running == was.running && closing == was.closing
        invariant jobs == was.jobs - Visited(was, now, left)
        invariant requests == was.requests - Forgotten(was, now, left)
        decreases |left|
      {
        var id :| id in left;
        ghost var before := left;
        left := left - {id};
        VisitStep(was, now, before, id);
        if Expired(jobs[id], now) {
          if jobs[id].request != "" {
            requests := requests - {jobs[id].request};
          }
          jobs := jobs - {id};
        }
      }
      EvictedValid(was, now);
    }

    method LookupRequest(request: string, selection: Selection) returns (found: Started)
      modifies this`requests
      ensures (Value(), found) == Lookup(old(Value()), request, selection)
    {
      if request !in requests {
        return NotFound;
      }
      var id := requests[request];
      if id !in jobs {
        requests := requests - {request};
        return NotFound;
      }
      if jobs[id].selection != selection {
        return Conflict;
      }
      found := Started.Started(id);
    }

    method Start(now: int, shutdown: bool, id: string, request: string, selection: Selection) returns (started: Started)
      requires Valid(Value()) && id !in jobs
      modifies this
      ensures (Value(), started) == StartStep(old(Value()), now, shutdown, id, request, selection)
      ensures Valid(Value())
    {
      hide Valid, Evicted;
      ghost var was := Value();
      StartValid(was, now, shutdown, id, request, selection);
      if closing || shutdown {
        return Closed;
      }
      EvictExpired(now);
      started := LookupRequest(request, selection);
      if !started.NotFound? {
        return;
      }
      if running >= MAX_RUNNING {
        return Busy;
      }
      jobs := jobs[id := JobInfo(request, selection, None)];
      if request != "" {
        requests := requests[request := id];
      }
      running := running + 1;
      started := Started.Started(id);
    }

    method StartForRequest(now: int, request: string, selection: Selection) returns (started: Started)
      requires Valid(Value())
      modifies this
      ensures (Value(), started) == StartForRequestStep(old(Value()), now, request, selection)
      ensures Valid(Value())
    {
      hide Valid, Evicted;
      if request == "" {
        return NotFound;
      }
      EvictExpired(now);
      LookupKeeps(Value(), request, selection);
      started := LookupRequest(request, selection);
    }

    method FinishRunningJob(id: string, now: int)
      requires Valid(Value()) && id in RunningJobs(Value())
      modifies this`jobs, this`running
      ensures Value() == FinishStep(old(Value()), id, now) && Valid(Value())
    {
      hide Valid;
      FinishValid(Value(), id, now);
      jobs := jobs[id := jobs[id].(completedAt := Some(now))];
      running := running - 1;
    }

    method Close()
      requires Valid(Value())
      modifies this`closing
      ensures Value() == CloseStep(old(Value())) && Valid(Value())
    {
      closing := true;
      assert RunningJobs(Value()) == RunningJobs(old(Value()));
    }
  }

  /** The expired jobs visited while those in `left` are still to come, and the keys they carry. */
  function Visited(m: Manager, now: int, left: set<string>): set<string> {
    ExpiredJobs(m, now) - left
  }

  function Forgotten(m: Manager, now: int, left: set<string>): set<string> {
    set id | id in Visited(m, now, left) && id in m.jobs && m.jobs[id].request != "" :: m.jobs[id].request
  }

  lemma VisitBounds(m: Manager, now: int)
    ensures m.jobs - Visited(m, now, m.jobs.Keys) == m.jobs
    ensures m.requests - Forgotten(m, now, m.jobs.Keys) == m.requests
    ensures Visited(m, now, {}) == ExpiredJobs(m, now)
    ensures Forgotten(m, now, {}) == ExpiredRequests(m, now)
  {
    hide Expired;
    assert Visited(m, now, m.jobs.Keys) == {};
  }

  lemma VisitStep(m: Manager, now: int, left: set<string>, id: string)
    requires id in left && left <= m.jobs.Keys
    ensures id in m.jobs - Visited(m, now, left)
    ensures var before, after := m.jobs - Visited(m, now, left), m.jobs - Visited(m, now, left - {id});
      if Expired(m.jobs[id], now) then after == before - {id} else after == before
    ensures var before, after := m.requests - Forgotten(m, now, left), m.requests - Forgotten(m, now, left - {id});
      if Expired(m.jobs[id], now) && m.jobs[id].request != "" then after == before - {m.jobs[id].request}
          else after == before
  {
    hide Expired;
    var gone := if Expired(m.jobs[id], now) then {id} else {};
    assert Visited(m, now, left - {id}) == Visited(m, now, left) + gone;
    assert Forgotten(m, now, left - {id}) == Forgotten(m, now, left) +
           if Expired(m.jobs[id], now) && m.jobs[id].request != "" then {m.jobs[id].request} else {};
  }

  // ---- whole runs ----------------------------------------------------------------------------

  datatype Op =
    | StartOp(now: int, shutdown: bool, id: string, request: string, selection: Selection)
    | StartForRequestOp(now: int, request: string, selection: Selection)
    | FinishOp(id: string, now: int)
    | CloseOp

  predicate Possible(m: Manager, op: Op) {
    match op
    case StartOp(_, _, id, _, _) => id !in m.jobs
    case FinishOp(id, _) => id in RunningJobs(m)
    case _ => true
  }

  function Do(m: Manager, op: Op): Manager
    requires Possible(m, op)
  {
    match op
    case StartOp(now, shutdown, id, request, selection) => StartStep(m, now, shutdown, id, request, selection).0
    case StartForRequestOp(now, request, selection) => StartForRequestStep(m, now, request, selection).0
    case FinishOp(id, now) => FinishStep(m, id, now)
    case CloseOp => CloseStep(m)
  }

  /** `key` starts, or started, job `id` for this selection. */
  predicate Bound(m: Manager, key: string, id: string, selection: Selection) {
    && key in m.requests && m.requests[key] == id
    && id in m.jobs && m.jobs[id].selection == selection && m.jobs[id].request == key
  }

  lemma DoValid(m: Manager, op: Op)
    requires Valid(m) && Possible(m, op)
    ensures Valid(Do(m, op))
  {
    match op
    case StartOp(now, shutdown, id, request, selection) =>
      hide Valid;
      StartValid(m, now, shutdown, id, request, selection);
    case StartForRequestOp(now, request, selection) =>
      EvictedValid(m, now);
    case FinishOp(id, now) =>
      hide Valid;
      FinishValid(m, id, now);
    case CloseOp =>
      assert RunningJobs(Do(m, op)) == RunningJobs(m);
  }

  lemma DoKeepsBinding(m: Manager, op: Op, key: string, id: string, selection: Selection)
    requires Valid(m) && Possible(m, op) && Bound(m, key, id, selection)
    requires id in Do(m, op).jobs
    ensures Bound(Do(m, op), key, id, selection)
  {
    hide Expired;
    if op.StartOp? || op.StartForRequestOp? {
      EvictedValid(m, op.now);
    }
  }

  /** The states of a run of operations. */
  ghost predicate History(states: seq<Manager>, ops: seq<Op>) {
    && |states| == |ops| + 1
    && forall i :: 0 <= i < |ops| ==> Possible(states[i], ops[i]) && states[i + 1] == Do(states[i], ops[i])
  }

  lemma {:induction false} HistoryValid(states: seq<Manager>, ops: seq<Op>, n: nat)
    requires History(states, ops) && n <= |ops| && Valid(states[0])
    ensures Valid(states[n])
    decreases n
  {
    hide Valid, Do, Possible;
    if n > 0 {
      HistoryValid(states, ops, n - 1);
      DoValid(states[n - 1], ops[n - 1]);
    }
  }

  const FRESH := Manager(map[], map[], 0, false)

  lemma FreshValid()
    ensures Valid(FRESH)
  {
    assert RunningJobs(FRESH) == {};
  }

  /** At no time in the life of a manager do two jobs share a key, or two jobs run. */
  lemma KeysAreNotShared(states: seq<Manager>, ops: seq<Op>, n: nat, a: string, b: string)
    requires History(states, ops) && n <= |ops| && states[0] == FRESH
    requires a in states[n].jobs && b in states[n].jobs
    requires states[n].jobs[a].request == states[n].jobs[b].request != "" ||
             (states[n].jobs[a].completedAt.None? && states[n].jobs[b].completedAt.None?)
    ensures a == b
  {
    hide Possible, Do;
    FreshValid();
    HistoryValid(states, ops, n);
    var m := states[n];
    if m.jobs[a].request == m.jobs[b].request != "" {
      assert m.requests[m.jobs[a].request] == a;
    } else {
      AtMostOne(RunningJobs(m), a, b);
    }
  }

  lemma AtMostOne<T>(xs: set<T>, a: T, b: T)
    requires |xs| <= 1 && a in xs && b in xs
    ensures a == b
  {
    assert |xs - {a}| == 0;
  }

  lemma {:induction false} HistoryKeepsBinding(states: seq<Manager>, ops: seq<Op>, n: nat, key: string, id: string,
                                               selection: Selection)
    requires History(states, ops) && n <= |ops| && Valid(states[0]) && Bound(states[0], key, id, selection)
    requires forall i :: 0 <= i <= n ==> id in states[i].jobs
    ensures Bound(states[n], key, id, selection)
    decreases n
  {
    hide Valid, Do, Possible, Bound;
    if n > 0 {
      HistoryKeepsBinding(states, ops, n - 1, key, id, selection);
      HistoryValid(states, ops, n - 1);
      assert states[n] == Do(states[n - 1], ops[n - 1]) && id in states[n].jobs;
      DoKeepsBinding(states[n - 1], ops[n - 1], key, id, selection);
    }
  }

  /** A key answers with the job it started for as long as that job is retained, whatever happened in
      between, and refuses any other selection. */
  lemma RepeatedStartSameJob(states: seq<Manager>, ops: seq<Op>, first: nat, last: nat, selection: Selection,
                             again: Selection, now: int, id: string)
    requires History(states, ops) && Valid(states[0]) && first < last <= |ops|
    requires ops[first].StartOp? && ops[first].request != "" && ops[first].selection == selection
    requires StartStep(states[first], ops[first].now, ops[first].shutdown, ops[first].id, ops[first].request,
                       selection).1
             == Started.Started(id)
    requires forall i :: first < i <= last ==> id in states[i].jobs
    requires !states[last].closing && !Expired(states[last].jobs[id], now)
    ensures StartStep(states[last], now, false, "", ops[first].request, again).1 ==
            if again == selection then Started.Started(id) else Conflict
  {
    hide Valid, Do, Possible, Expired, Evicted;
    var key := ops[first].request;
    HistoryValid(states, ops, first);
    HistoryValid(states, ops, first + 1);
    HistoryValid(states, ops, last);
    StartedIsBound(states[first], ops[first], id);
    HistoryKeepsBinding(states[first + 1..], ops[first + 1..], last - first - 1, key, id, selection);
    UnexpiredStaysBound(states[last], key, id, selection, now);
  }

  lemma StartedIsBound(m: Manager, op: Op, id: string)
    requires Valid(m) && op.StartOp? && op.request != "" && Possible(m, op)
    requires StartStep(m, op.now, op.shutdown, op.id, op.request, op.selection).1 == Started.Started(id)
    ensures Bound(Do(m, op), op.request, id, op.selection)
  {
    hide Expired;
    EvictedValid(m, op.now);
  }

  lemma UnexpiredStaysBound(m: Manager, key: string, id: string, selection: Selection, now: int)
    requires Valid(m) && Bound(m, key, id, selection) && !Expired(m.jobs[id], now)
    ensures Bound(Evicted(m, now), key, id, selection)
  {
    hide Expired;
    forall other | other in ExpiredJobs(m, now) ensures m.jobs[other].request != key {
      assert m.jobs[other].request != "" ==> m.requests[m.jobs[other].request] == other;
    }
  }

  // ---- what a start answers ------------------------------------------------------------------

  /** The job is running, or ended less than an hour ago. */
  predicate Retained(job: JobInfo, now: int) {
    job.completedAt.None? || now - job.completedAt.value < 3600
  }

  /** The key was given with a job that is retained. */
  predicate Known(m: Manager, now: int, request: string) {
    request in m.requests && m.requests[request] in m.jobs && Retained(m.jobs[m.requests[request]], now)
  }

  /** Eviction keeps exactly the retained jobs, as they are, and exactly their keys. */
  lemma EvictedTell(m: Manager, now: int)
    requires Valid(m)
    ensures var after := Evicted(m, now);
      && (forall j :: j in after.jobs <==> j in m.jobs && Retained(m.jobs[j], now))
      && (forall j :: j in after.jobs ==> after.jobs[j] == m.jobs[j])
      && (forall r :: r in after.requests <==> Known(m, now, r))
      && (forall r :: r in after.requests ==> after.requests[r] == m.requests[r])
      && after.running == m.running && after.closing == m.closing
  {
    forall r | r in m.requests ensures r in ExpiredRequests(m, now) <==> !Retained(m.jobs[m.requests[r]], now) {
      var id := m.requests[r];
      assert id in m.jobs && m.jobs[id].request == r;
      forall other | other in ExpiredJobs(m, now) && m.jobs[other].request == r ensures other == id {
        assert m.requests[m.jobs[other].request] == other;
      }
    }
  }

  /** A manager that closes or shuts down starts nothing. Otherwise a known key is answered with its job, or with a
      conflict for another selection; any other request finds a job running, or starts one under its key. Nothing
      else changes but that jobs an hour past their end are forgotten with their keys. */
  lemma StartAnswers(m: Manager, now: int, shutdown: bool, id: string, request: string, selection: Selection)
    requires Valid(m) && id !in m.jobs
    ensures var (after, answer) := StartStep(m, now, shutdown, id, request, selection);
            var known, busy := Known(m, now, request), exists j :: j in m.jobs && m.jobs[j].completedAt.None?;
      && (m.closing || shutdown ==> answer == Closed && after == m)
      && (!m.closing && !shutdown && known ==>
            answer == (if m.jobs[m.requests[request]].selection == selection
                       then Started.Started(m.requests[request]) else Conflict))
      && (!m.closing && !shutdown && !known && busy ==> answer == Busy)
      && (!m.closing && !shutdown && !known && !busy ==>
            && answer == Started.Started(id) && after.running == 1
            && id in after.jobs && after.jobs[id] == JobInfo(request, selection, None)
            && (request != "" ==> request in after.requests && after.requests[request] == id))
      && (!m.closing && !shutdown ==>
            && (forall j :: j != id ==> (j in after.jobs <==> j in m.jobs && Retained(m.jobs[j], now)))
            && (forall j :: j in after.jobs && j != id ==> after.jobs[j] == m.jobs[j])
            && (id in after.jobs <==> !known && !busy)
            && (forall r :: r != request ==> (r in after.requests <==> Known(m, now, r))))
  {
    hide Evicted, Retained, Valid;
    EvictedTell(m, now);
    EvictedValid(m, now);
    BusyExactly(m);
    KeptKeys(Evicted(m, now), request, selection);
    assert request == "" ==> !Known(m, now, request) by { NoBlankKey(m); }
  }

  lemma NoBlankKey(m: Manager)
    requires Valid(m)
    ensures "" !in m.requests
  {
  }

  /** A key in the table leads to a job of the table. */
  lemma KeptKeys(m: Manager, request: string, selection: Selection)
    requires Valid(m)
    ensures request in m.requests ==> m.requests[request] in m.jobs
  {
  }

  lemma BusyExactly(m: Manager)
    requires Valid(m)
    ensures m.running >= MAX_RUNNING <==> exists j :: j in m.jobs && m.jobs[j].completedAt.None?
    ensures 0 <= m.running <= 1
  {
    if j :| j in m.jobs && m.jobs[j].completedAt.None? {
      assert j in RunningJobs(m);
      assert |RunningJobs(m)| != 0;
    } else {
      assert RunningJobs(m) == {};
    }
  }

  /** Asking again with a known key gives its job, or a conflict; with any other key nothing. */
  lemma RequestAnswers(m: Manager, now: int, request: string, selection: Selection)
    requires Valid(m)
    ensures StartForRequestStep(m, now, request, selection).1 ==
            if Known(m, now, request) then
              if m.jobs[m.requests[request]].selection == selection then Started.Started(m.requests[request])
                  else Conflict
            else NotFound
  {
    hide Evicted, Retained, Valid;
    EvictedTell(m, now);
    EvictedValid(m, now);
    KeptKeys(Evicted(m, now), request, selection);
    NoBlankKey(m);
  }

  /** Finishing a running job stamps it and frees its slot. */
  lemma FinishFrees(m: Manager, id: string, now: int)
    requires Valid(m) && id in m.jobs && m.jobs[id].completedAt.None?
    ensures var after := FinishStep(m, id, now);
      && after.running == 0 && after.jobs.Keys == m.jobs.Keys && after.jobs[id].completedAt == Some(now)
      && after.jobs[id].request == m.jobs[id].request && after.jobs[id].selection == m.jobs[id].selection
      && forall j :: j in after.jobs ==> after.jobs[j].completedAt.Some?
  {
    BusyExactly(m);
    forall j | j in m.jobs && j != id ensures m.jobs[j].completedAt.Some? {
      if m.jobs[j].completedAt.None? { AtMostOne(RunningJobs(m), id, j); }
    }
  }
}
