/** Storing usage snapshots by compare-and-swap: several refreshers, retries, and other writers. */
module UsageSnapshot {
  import opened Names
  import opened Seqs

  /** The stored usage of a channel, with its request and sample times. */
  datatype Snapshot = Snapshot(provider: string, requestedAt: int, sampledAt: int, plan: string,
                               windows: seq<Option<int>>)

  /** What a credential column holds of interest; `rest` stands for everything else in it. Only Codex
      credentials restart their quota epoch. */
  datatype Credential = Credential(provider: string, codex: bool, account: string, epoch: int,
                                   snapshot: Option<Snapshot>, rest: int)

  /** A sample to store: when it was asked for and taken, and when each window was sampled. */
  datatype Sample = Sample(
    provider: string, account: string, plan: string, requestedAt: int, codexRequestedAt: Option<int>, sampledAt: int,
    windows: seq<Option<int>>)

  function RequestTime(s: Sample): int {
    if s.codexRequestedAt.Some? then s.codexRequestedAt.value else s.requestedAt
  }

  function Persisted(c: Credential, provider: string): Option<Snapshot> {
    if c.snapshot.Some? && c.snapshot.value.provider == provider then c.snapshot else None
  }

  predicate WindowBefore(windows: seq<Option<int>>, epoch: int) {
    exists i :: 0 <= i < |windows| && windows[i].Some? && windows[i].value < epoch
  }

  predicate OtherAccount(c: Credential, s: Sample) {
    s.account != "" && s.account != c.account
  }

  /** The sample belongs to an epoch, or an account, that is over. */
  predicate StaleSample(c: Credential, s: Sample) {
    c.codex && (RequestTime(s) < c.epoch || s.sampledAt < c.epoch || OtherAccount(c, s) ||
                WindowBefore(s.windows, c.epoch))
  }

  predicate PlanChanged(c: Credential, s: Sample) {
    var p := Persisted(c, s.provider);
    c.codex && p.Some? && p.value.plan != "" && s.plan != "" && !EqualFold(p.value.plan, s.plan)
  }

  /** The earliest time anything in the sample was taken. */
  function EarliestSample(at: int, windows: seq<Option<int>>): int
    decreases |windows|
  {
    if windows == [] then at
    else
      var before, w := EarliestSample(at, windows[..|windows| - 1]), windows[|windows| - 1];
      if w.Some? && w.value < before then w.value else before
  }

  datatype Decision = Fail | Keep(snapshot: Snapshot) | Write(next: Credential)

  /** The credential with the sample stored; a new plan starts a new epoch. */
  function Stored(c: Credential, s: Sample): Credential {
    c.(snapshot := Some(Snapshot(s.provider, RequestTime(s), s.sampledAt, s.plan, s.windows)),
       epoch := if PlanChanged(c, s) then EarliestSample(s.sampledAt, s.windows) else c.epoch)
  }

  /** What one attempt does with the credential it read. */
  function Decide(c: Credential, s: Sample): Decision {
    var p := Persisted(c, s.provider);
    if c.provider != s.provider then Fail
    else if StaleSample(c, s) then (if p.Some? then Keep(p.value) else Fail)
    else if p.Some? && p.value.requestedAt >= RequestTime(s) then Keep(p.value)
    else Write(Stored(c, s))
  }

  // ---- the loops over the windows ------------------------------------------------------------

  method SampleIsStale(c: Credential, s: Sample) returns (stale: bool)
    ensures stale == StaleSample(c, s)
  {
    if !c.codex {
      return false;
    }
    stale := RequestTime(s) < c.epoch || s.sampledAt < c.epoch || (s.account != "" && s.account != c.account);
    ghost var before := stale;
    for i := 0 to |s.windows|
      invariant stale == (before || exists k :: 0 <= k < i && s.windows[k].Some? && s.windows[k].value < c.epoch)
    {
      if s.windows[i].Some? && s.windows[i].value < c.epoch {
        stale := true;
      }
    }
  }

  method ChangedAt(s: Sample) returns (at: int)
    ensures at == EarliestSample(s.sampledAt, s.windows)
  {
    at := s.sampledAt;
    for i := 0 to |s.windows|
      invariant at == EarliestSample(s.sampledAt, s.windows[..i])
    {
      assert s.windows[..i + 1][..i] == s.windows[..i];
      if s.windows[i].Some? && s.windows[i].value < at {
        at := s.windows[i].value;
      }
    }
    assert s.windows[..|s.windows|] == s.windows;
  }

  /** One attempt of the retry loop up to its compare-and-swap. */
  method Attempt(c: Credential, s: Sample) returns (d: Decision)
    ensures d == Decide(c, s)
  {
    hide StaleSample, EqualFold, EarliestSample;
    if c.provider != s.provider {
      return Fail;
    }
    var p := Persisted(c, s.provider);
    var stale := SampleIsStale(c, s);
    if stale {
      return if p.Some? then Keep(p.value) else Fail;
    }
    if p.Some? && !(p.value.requestedAt < RequestTime(s)) {
      return Keep(p.value);
    }
    var epoch := c.epoch;
    if c.codex && p.Some? && p.value.plan != "" && s.plan != "" && !EqualFold(p.value.plan, s.plan) {
      epoch := ChangedAt(s);
    }
    d := Write(c.(snapshot := Some(Snapshot(s.provider, RequestTime(s), s.sampledAt, s.plan, s.windows)),
                  epoch := epoch));
  }

  // ---- one write -----------------------------------------------------------------------------

  lemma {:induction false} EarliestBounds(at: int, windows: seq<Option<int>>, epoch: int)
    requires at >= epoch && !WindowBefore(windows, epoch)
    ensures EarliestSample(at, windows) >= epoch && EarliestSample(at, windows) <= at
    ensures !WindowBefore(windows, EarliestSample(at, windows))
    decreases |windows|
  {
    if windows != [] {
      var front, w := windows[..|windows| - 1], windows[|windows| - 1];
      assert !WindowBefore(front, epoch) by {
        forall i | 0 <= i < |front| && front[i].Some? ensures front[i].value >= epoch { assert windows[i] == front[i]; }
      }
      EarliestBounds(at, front, epoch);
      var e := EarliestSample(at, windows);
      assert w.Some? ==> w.value >= epoch by { assert windows[|windows| - 1] == w; }
      forall i | 0 <= i < |windows| && windows[i].Some? ensures windows[i].value >= e {
        if i < |front| { assert windows[i] == front[i]; }
      }
    }
  }

  /** A write is newer than what it replaces, belongs to the epoch and the account it was checked
      against, and leaves a snapshot that no later epoch of its own contradicts. */
  lemma WriteIsFresh(c: Credential, s: Sample)
    requires Decide(c, s).Write?
    ensures var next := Decide(c, s).next;
      && next.snapshot == Some(Snapshot(s.provider, RequestTime(s), s.sampledAt, s.plan, s.windows))
      && (Persisted(c, s.provider).Some? ==> Persisted(c, s.provider).value.requestedAt < RequestTime(s))
      && (c.codex ==> RequestTime(s) >= c.epoch && s.sampledAt >= c.epoch && !WindowBefore(s.windows, c.epoch))
      && (c.codex && s.account != "" ==> s.account == c.account)
      && (c.codex ==> c.epoch <= next.epoch <= s.sampledAt && !WindowBefore(s.windows, next.epoch))
      && (next.epoch != c.epoch ==> PlanChanged(c, s))
      && (next.provider, next.codex, next.account, next.rest) == (c.provider, c.codex, c.account, c.rest)
  {
    hide EqualFold, WindowBefore;
    if c.codex { EarliestBounds(s.sampledAt, s.windows, c.epoch); }
  }

  // ---- when a sample is written --------------------------------------------------------------

  /** Some time of the sample lies before `t`. */
  ghost predicate TakenBefore(s: Sample, t: int) {
    s.sampledAt < t || exists w :: w in s.windows && w.Some? && w.value < t
  }

  /** The sample was asked for or taken in an epoch that is over, or names another account. */
  ghost predicate Outdated(c: Credential, s: Sample) {
    && c.codex
    && (RequestTime(s) < c.epoch || TakenBefore(s, c.epoch) || (s.account != "" && s.account != c.account))
  }

  /** The credential's own snapshot of this provider was asked for at least as late. */
  ghost predicate Overtaken(c: Credential, s: Sample) {
    c.snapshot.Some? && c.snapshot.value.provider == s.provider && c.snapshot.value.requestedAt >= RequestTime(s)
  }

  /** The stored plan is known, and the sample names another one. */
  ghost predicate OtherPlan(c: Credential, s: Sample) {
    && c.codex && c.snapshot.Some? && c.snapshot.value.provider == s.provider
    && c.snapshot.value.plan != "" && s.plan != "" && Lower(c.snapshot.value.plan) != Lower(s.plan)
  }

  lemma WindowsExactly(s: Sample, t: int)
    ensures WindowBefore(s.windows, t) <==> exists w :: w in s.windows && w.Some? && w.value < t
  {
    if exists w :: w in s.windows && w.Some? && w.value < t {
      var w :| w in s.windows && w.Some? && w.value < t;
      var i :| 0 <= i < |s.windows| && s.windows[i] == w;
      assert s.windows[i].value < t;
    }
  }

  lemma {:induction false} EarliestTaken(at: int, windows: seq<Option<int>>)
    ensures EarliestSample(at, windows) == at || Some(EarliestSample(at, windows)) in windows
    ensures EarliestSample(at, windows) <= at
    ensures forall w :: w in windows && w.Some? ==> EarliestSample(at, windows) <= w.value
    decreases |windows|
  {
    if windows != [] {
      EarliestTaken(at, windows[..|windows| - 1]);
      assert windows == windows[..|windows| - 1] + [windows[|windows| - 1]];
    }
  }

  /** A sample is written if and only if the provider is still the same, the sample is not outdated, and no snapshot
      of it was asked for as late; it starts an epoch if and only if it names another plan, at the earliest time
      anything in it was taken. An outdated or overtaken one is answered with the stored snapshot, if there is one. */
  lemma DecideExactly(c: Credential, s: Sample)
    ensures Decide(c, s).Write? <==> c.provider == s.provider && !Outdated(c, s) && !Overtaken(c, s)
    ensures Decide(c, s).Write? ==>
      var next := Decide(c, s).next;
      && next.snapshot == Some(Snapshot(s.provider, RequestTime(s), s.sampledAt, s.plan, s.windows))
      && (!OtherPlan(c, s) ==> next.epoch == c.epoch)
      && (OtherPlan(c, s) ==>
            !TakenBefore(s, next.epoch) && (next.epoch == s.sampledAt || Some(next.epoch) in s.windows))
    ensures Decide(c, s).Keep? <==> c.provider == s.provider && (Outdated(c, s) || Overtaken(c, s)) &&
                                    c.snapshot.Some? && c.snapshot.value.provider == s.provider
    ensures Decide(c, s).Keep? ==> Some(Decide(c, s).snapshot) == c.snapshot
  {
    hide WindowBefore, EarliestSample, Lower;
    WindowsExactly(s, c.epoch);
    EarliestTaken(s.sampledAt, s.windows);
  }

  // ---- refreshers and other writers ----------------------------------------------------------

  datatype Answer = Failed | Kept(snapshot: Snapshot, newer: bool) | Written

  datatype Refresher =
    Ready(sample: Sample) | Holding(sample: Sample, seen: Credential) | Done(sample: Sample, answer: Answer)

  datatype State = State(stored: Credential, refreshers: seq<Refresher>)

  datatype Step =
    | Read(i: nat)
    | Act(i: nat)                  // decide on what was read; a write goes through only if nothing changed
    | GiveUp(i: nat)               // cancelled, or the encoded credential does not fit
    | Other(next: Credential)      // any other writer that keeps the snapshot
    | Restart(at: int, account: string, rest: int)   // another writer opens a new quota epoch

  predicate Enabled(s: State, step: Step) {
    match step
    case Read(i) => i < |s.refreshers| && s.refreshers[i].Ready?
    case Act(i) => i < |s.refreshers| && s.refreshers[i].Holding?
    case GiveUp(i) => i < |s.refreshers| && !s.refreshers[i].Done?
    case Other(next) => next.snapshot == s.stored.snapshot && next.provider == s.stored.provider &&
                        next.codex == s.stored.codex && next.epoch == s.stored.epoch
    case Restart(at, _, _) => s.stored.codex && at >= s.stored.epoch
  }

  function Finish(s: State, i: nat, answer: Answer): State
    requires i < |s.refreshers|
  {
    s.(refreshers := s.refreshers[i := Done(s.refreshers[i].sample, answer)])
  }

  function ActStep(s: State, i: nat): State
    requires i < |s.refreshers| && s.refreshers[i].Holding?
  {
    var r := s.refreshers[i];
    match Decide(r.seen, r.sample)
    case Fail => Finish(s, i, Failed)
    case Keep(snapshot) => Finish(s, i, Kept(snapshot, !StaleSample(r.seen, r.sample)))
    case Write(next) =>
      if s.stored == r.seen then Finish(s.(stored := next), i, Written)
      else s.(refreshers := s.refreshers[i := Ready(r.sample)])
  }

  function Do(s: State, step: Step): State
    requires Enabled(s, step)
  {
    match step
    case Read(i) => s.(refreshers := s.refreshers[i := Holding(s.refreshers[i].sample, s.stored)])
    case Act(i) => ActStep(s, i)
    case GiveUp(i) => Finish(s, i, Failed)
    case Other(next) => s.(stored := next)
    case Restart(at, account, rest) => s.(stored := s.stored.(epoch := at, account := account, snapshot := None,
                                                              rest := rest))
  }

  /** The request time of the stored snapshot, if it is one of this provider's. */
  function StoredTime(c: Credential): Option<int> {
    var p := Persisted(c, c.provider);
    if p.Some? then Some(p.value.requestedAt) else None
  }

  predicate AtLeast(t: Option<int>, bound: int) {
    t.Some? && t.value >= bound
  }

  predicate NotOlder(before: Option<int>, after: Option<int>) {
    before.Some? ==> AtLeast(after, before.value)
  }

  predicate Wrote(s: State, step: Step) {
    Enabled(s, step) && step.Act? && Decide(s.refreshers[step.i].seen, s.refreshers[step.i].sample).Write? &&
    s.stored == s.refreshers[step.i].seen
  }

  lemma StepMonotone(s: State, step: Step)
    requires Enabled(s, step) && !step.Restart?
    ensures NotOlder(StoredTime(s.stored), StoredTime(Do(s, step).stored))
    ensures Do(s, step).stored.provider == s.stored.provider
    ensures Wrote(s, step) ==> StoredTime(Do(s, step).stored) == Some(RequestTime(s.refreshers[step.i].sample))
    ensures Wrote(s, step) && StoredTime(s.stored).Some? ==>
              StoredTime(s.stored).value < StoredTime(Do(s, step).stored).value
    ensures !Wrote(s, step) ==> StoredTime(Do(s, step).stored) == StoredTime(s.stored)
  {
    hide EqualFold, StaleSample, EarliestSample, PlanChanged;
  }

  /** A refresher that is done, and did not fail or meet a newer epoch, is covered by what is stored;
      one that lost to a newer request was answered with a snapshot at least as recent as its own. */
  predicate Covered(r: Refresher, stored: Option<int>) {
    && (r.Done? && r.answer.Written? ==> AtLeast(stored, RequestTime(r.sample)))
    && (r.Done? && r.answer.Kept? && r.answer.newer ==>
          r.answer.snapshot.requestedAt >= RequestTime(r.sample) && AtLeast(stored, r.answer.snapshot.requestedAt))
    && (r.Holding? ==> NotOlder(StoredTime(r.seen), stored))
  }

  ghost predicate AllCovered(s: State) {
    && (forall i :: 0 <= i < |s.refreshers| ==> Covered(s.refreshers[i], StoredTime(s.stored)))
    && (forall i :: 0 <= i < |s.refreshers| && s.refreshers[i].Holding? ==>
        s.refreshers[i].seen.provider == s.stored.provider)
  }

  lemma CoveredLater(r: Refresher, before: Option<int>, after: Option<int>)
    requires Covered(r, before) && NotOlder(before, after)
    ensures Covered(r, after)
  {
  }

  lemma StepCovers(s: State, step: Step)
    requires AllCovered(s) && Enabled(s, step) && !step.Restart?
    ensures AllCovered(Do(s, step))
  {
    hide EqualFold, StaleSample, EarliestSample, PlanChanged, Covered;
    StepMonotone(s, step);
    var before, after := StoredTime(s.stored), StoredTime(Do(s, step).stored);
    forall i | 0 <= i < |s.refreshers| ensures Covered(s.refreshers[i], after) {
      CoveredLater(s.refreshers[i], before, after);
    }
    forall i | 0 <= i < |s.refreshers| ensures Covered(Do(s, step).refreshers[i], after) {
      if (step.Read? || step.Act? || step.GiveUp?) && i == step.i { MoverCovered(s, step); }
    }
  }

  lemma MoverCovered(s: State, step: Step)
    requires Enabled(s, step) && (step.Read? || step.Act? || step.GiveUp?)
    requires Covered(s.refreshers[step.i], StoredTime(s.stored))
    requires s.refreshers[step.i].Holding? ==> s.refreshers[step.i].seen.provider == s.stored.provider
    ensures Covered(Do(s, step).refreshers[step.i], StoredTime(Do(s, step).stored))
  {
    hide EqualFold, EarliestSample, PlanChanged, WindowBefore;
  }

  function Run(s: State, steps: seq<Step>): Option<State>
    decreases |steps|
  {
    if steps == [] then Some(s)
    else
      var before, step := Run(s, steps[..|steps| - 1]), steps[|steps| - 1];
      if before.Some? && Enabled(before.value, step) then Some(Do(before.value, step)) else None
  }

  ghost predicate Beginning(s: State) {
    forall i :: 0 <= i < |s.refreshers| ==> s.refreshers[i].Ready?
  }

  /** Under any interleaving of refreshers with writers that keep the snapshot: the stored request time
      never goes back, and no finished refresh is lost to an older one. */
  lemma {:induction false} RefreshesNeverLost(s: State, steps: seq<Step>)
    requires Beginning(s) && Run(s, steps).Some?
    requires forall i :: 0 <= i < |steps| ==> !steps[i].Restart?
    ensures AllCovered(Run(s, steps).value)
    ensures NotOlder(StoredTime(s.stored), StoredTime(Run(s, steps).value.stored))
    decreases |steps|
  {
    hide Enabled, Do, AllCovered;
    if steps == [] {
      BeginningCovered(s);
    } else {
      var front := steps[..|steps| - 1];
      assert forall i :: 0 <= i < |front| ==> front[i] == steps[i];
      RefreshesNeverLost(s, front);
      StepCovers(Run(s, front).value, steps[|steps| - 1]);
      StepMonotone(Run(s, front).value, steps[|steps| - 1]);
    }
  }

  lemma BeginningCovered(s: State)
    requires Beginning(s)
    ensures AllCovered(s)
  {
  }

  lemma {:induction false} RunPrefix(s: State, steps: seq<Step>, j: nat)
    requires Run(s, steps).Some? && j < |steps|
    ensures Run(s, steps[..j]).Some? && Enabled(Run(s, steps[..j]).value, steps[j])
    ensures Run(s, steps[..j + 1]) == Some(Do(Run(s, steps[..j]).value, steps[j]))
    decreases |steps|
  {
    hide Enabled, Do;
    var front := steps[..|steps| - 1];
    assert steps[..j + 1][..j] == steps[..j];
    if j < |front| {
      RunPrefix(s, front, j);
      assert front[..j] == steps[..j] && front[..j + 1] == steps[..j + 1];
    } else {
      assert steps[..j + 1] == steps;
    }
  }

  lemma {:induction false} NeverBack(s: State, steps: seq<Step>, i: nat, j: nat)
    requires Run(s, steps).Some? && i <= j <= |steps|
    requires forall k :: 0 <= k < |steps| ==> !steps[k].Restart?
    requires Run(s, steps[..i]).Some?
    ensures Run(s, steps[..j]).Some?
    ensures NotOlder(StoredTime(Run(s, steps[..i]).value.stored), StoredTime(Run(s, steps[..j]).value.stored))
    decreases j
  {
    hide Run, Do, Enabled, StoredTime;
    if i < j {
      NeverBack(s, steps, i, j - 1);
      RunPrefix(s, steps, j - 1);
      StepMonotone(Run(s, steps[..j - 1]).value, steps[j - 1]);
    }
  }

  /** The successful writes of such a run carry strictly increasing request times. */
  lemma WritesStrictlyIncrease(s: State, steps: seq<Step>, i: nat, j: nat)
    requires Run(s, steps).Some? && i < j < |steps|
    requires forall k :: 0 <= k < |steps| ==> !steps[k].Restart?
    requires Run(s, steps[..i]).Some? && Wrote(Run(s, steps[..i]).value, steps[i])
    requires Run(s, steps[..j]).Some? && Wrote(Run(s, steps[..j]).value, steps[j])
    ensures RequestTime(Run(s, steps[..i]).value.refreshers[steps[i].i].sample) <
            RequestTime(Run(s, steps[..j]).value.refreshers[steps[j].i].sample)
  {
    hide Run, Do, StoredTime, RequestTime, Decide;
    RunPrefix(s, steps, i);
    StepMonotone(Run(s, steps[..i]).value, steps[i]);
    NeverBack(s, steps, i + 1, j);
    StepMonotone(Run(s, steps[..j]).value, steps[j]);
  }

  /** A refresher whose credential nobody changed in between stores its sample, if that is neither outdated nor
      overtaken, and is answered with it; otherwise nothing is stored. */
  lemma UndisturbedStores(s: State, i: nat)
    requires i < |s.refreshers| && s.refreshers[i].Ready? && s.stored.provider == s.refreshers[i].sample.provider
    ensures Enabled(s, Read(i)) && Enabled(Do(s, Read(i)), Act(i))
    ensures var sample, after := s.refreshers[i].sample, Do(Do(s, Read(i)), Act(i));
      && after.refreshers[i].Done?
      && (after.refreshers[i].answer.Written? <==> !Outdated(s.stored, sample) && !Overtaken(s.stored, sample))
      && (after.refreshers[i].answer.Written? ==>
            after.stored.snapshot ==
            Some(Snapshot(sample.provider, RequestTime(sample), sample.sampledAt, sample.plan, sample.windows)))
      && (!after.refreshers[i].answer.Written? ==> after.stored == s.stored)
  {
    hide Decide, Outdated, Overtaken, RequestTime, StaleSample, TakenBefore, OtherPlan;
    DecideExactly(s.stored, s.refreshers[i].sample);
  }

  // ---- answers older than the sample ---------------------------------------------------------

  /** What the refresher read holds an older snapshot of the provider, and the sample is stale there. */
  predicate MeetsOlder(c: Credential, s: Sample) {
    && c.provider == s.provider && StaleSample(c, s)
    && Persisted(c, s.provider).Some? && Persisted(c, s.provider).value.requestedAt < RequestTime(s)
  }

  lemma KeepsOlderExactly(c: Credential, s: Sample)
    ensures Decide(c, s).Keep? && Decide(c, s).snapshot.requestedAt < RequestTime(s) <==> MeetsOlder(c, s)
  {
    hide StaleSample, PlanChanged, EarliestSample;
  }

  predicate AnsweredOlder(r: Refresher) {
    r.Done? && r.answer.Kept? && r.answer.snapshot.requestedAt < RequestTime(r.sample)
  }

  predicate ActsOnOlder(r: Refresher) {
    r.Holding? && MeetsOlder(r.seen, r.sample)
  }

  /** In every run a refresher ends with a snapshot older than its own sample if and only if it decided on a
      credential that holds an older snapshot while its sample is stale there. */
  lemma {:induction false} AnsweredOlderExactly(s: State, steps: seq<Step>, i: nat)
    requires Beginning(s) && Run(s, steps).Some? && i < |s.refreshers|
    ensures |Run(s, steps).value.refreshers| == |s.refreshers|
    ensures AnsweredOlder(Run(s, steps).value.refreshers[i]) <==>
            exists j :: 0 <= j < |steps| && ActsAt(s, steps, i, j) &&
                ActsOnOlder(Run(s, steps[..j]).value.refreshers[i])
    decreases |steps|
  {
    hide Enabled, Do, ActsOnOlder, AnsweredOlder;
    if steps == [] {
      assert Run(s, steps).value.refreshers[i].Ready?;
      assert !AnsweredOlder(s.refreshers[i]) by { NotDone(s.refreshers[i]); }
    } else {
      var front, last := steps[..|steps| - 1], |steps| - 1;
      AnsweredOlderExactly(s, front, i);
      OneStepOlder(Run(s, front).value, steps[last], i);
      forall j: nat | j < |front|
        ensures steps[..j] == front[..j] && ActsAt(s, steps, i, j) == ActsAt(s, front, i, j) {}
      if AnsweredOlder(Run(s, steps).value.refreshers[i]) {
        if AnsweredOlder(Run(s, front).value.refreshers[i]) {
          var j :| 0 <= j < |front| && ActsAt(s, front, i, j) && ActsOnOlder(Run(s, front[..j]).value.refreshers[i]);
          assert ActsAt(s, steps, i, j);
        } else {
          assert ActsAt(s, steps, i, last);
        }
      }
      if j :| 0 <= j < |steps| && ActsAt(s, steps, i, j) && ActsOnOlder(Run(s, steps[..j]).value.refreshers[i]) {
        assert j < |front| ==> ActsAt(s, front, i, j);
      }
    }
  }

  /** Step `j` of the run is a decision of refresher `i`. */
  predicate ActsAt(s: State, steps: seq<Step>, i: nat, j: nat) {
    && j < |steps| && steps[j] == Act(i)
    && Run(s, steps[..j]).Some? && i < |Run(s, steps[..j]).value.refreshers|
  }

  lemma NotDone(r: Refresher)
    ensures !r.Done? ==> !AnsweredOlder(r)
  {
  }

  lemma OneStepOlder(s: State, step: Step, i: nat)
    requires Enabled(s, step) && i < |s.refreshers|
    ensures |Do(s, step).refreshers| == |s.refreshers|
    ensures AnsweredOlder(Do(s, step).refreshers[i]) <==>
            AnsweredOlder(s.refreshers[i]) || (step == Act(i) && ActsOnOlder(s.refreshers[i]))
  {
    hide MeetsOlder, RequestTime, StaleSample, PlanChanged, EarliestSample;
    if step == Act(i) { KeepsOlderExactly(s.refreshers[i].seen, s.refreshers[i].sample); }
  }

  /** A sample of another account is answered with a snapshot older than itself. */
  lemma OlderAnswerWitness()
    ensures var earlier := Snapshot("codex", 1, 1, "plus", []);
            var c := Credential("codex", true, "b", 0, Some(earlier), 0);
            var sample := Sample("codex", "a", "plus", 2, None, 2, []);
            var steps := [Read(0), Act(0)];
      && Run(State(c, [Ready(sample)]), steps) == Some(State(c, [Done(sample, Kept(earlier, false))]))
      && AnsweredOlder(Done(sample, Kept(earlier, false)))
  {
    var c := Credential("codex", true, "b", 0, Some(Snapshot("codex", 1, 1, "plus", [])), 0);
    var sample := Sample("codex", "a", "plus", 2, None, 2, []);
    var s := State(c, [Ready(sample)]);
    var steps := [Read(0), Act(0)];
    assert steps[..1] == [Read(0)] && [Read(0)][..0] == [];
    var holding, done := Holding(sample, c), Done(sample, Kept(c.snapshot.value, false));
    assert Run(s, []) == Some(s) && Enabled(s, Read(0));
    assert s.refreshers[0 := holding] == [holding] && [holding][0 := done] == [done];
    assert Run(s, [Read(0)]) == Some(State(c, [holding]));
    assert OtherAccount(c, sample) && Decide(c, sample) == Keep(c.snapshot.value);
    assert ActStep(State(c, [holding]), 0) == State(c, [done]);
  }

  // ---- epochs --------------------------------------------------------------------------------

  /** A stored Codex snapshot was sampled, whole, in the current epoch. */
  predicate InEpoch(c: Credential) {
    var p := Persisted(c, c.provider);
    c.codex && p.Some? ==> p.value.sampledAt >= c.epoch && !WindowBefore(p.value.windows, c.epoch)
  }

  /** Across refreshes, other writers and epoch restarts, the epoch only moves forward and no snapshot
      of an earlier epoch is ever stored. */
  lemma {:induction false} SnapshotsStayInEpoch(s: State, steps: seq<Step>)
    requires InEpoch(s.stored) && Run(s, steps).Some?
    ensures InEpoch(Run(s, steps).value.stored)
    ensures s.stored.codex ==> Run(s, steps).value.stored.codex && Run(s, steps).value.stored.epoch >= s.stored.epoch
    decreases |steps|
  {
    hide Enabled, Do, InEpoch;
    if steps != [] {
      var front, step := steps[..|steps| - 1], steps[|steps| - 1];
      SnapshotsStayInEpoch(s, front);
      StepInEpoch(Run(s, front).value, step);
    }
  }

  lemma StepInEpoch(s: State, step: Step)
    requires InEpoch(s.stored) && Enabled(s, step)
    ensures InEpoch(Do(s, step).stored)
    ensures s.stored.codex ==> Do(s, step).stored.codex && Do(s, step).stored.epoch >= s.stored.epoch
  {
    hide EqualFold, WindowBefore, EarliestSample, StaleSample, PlanChanged;
    if Wrote(s, step) { WriteIsFresh(s.stored, s.refreshers[step.i].sample); }
  }
}
