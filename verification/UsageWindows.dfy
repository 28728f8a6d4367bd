/** Merging a newer passive usage sample into the official snapshot, window by window. */
module UsageWindows {
  import opened Names
  import opened Seqs

  const NANOS := 1_000_000_000

  /** A quota window. Times of samples are in nanoseconds, boundaries in seconds. */
  datatype Window = Window(limitName: string, kind: string, used: real, remaining: real, seconds: int, resetAt: int,
                           sampledAt: Option<int>)

  /** A window of the cost ledger. */
  datatype LedgerWindow = LedgerWindow(key: string, seconds: int, resetAt: int)

  function Key(limitName: string, kind: string): string {
    var l, k := Lower(TrimSpace(limitName)), Lower(TrimSpace(kind));
    if l == "" && k == "" then "" else l + "|" + k
  }

  function KeyOf(w: Window): string {
    Key(w.limitName, w.kind)
  }

  function Unix(nanos: int): int {
    nanos / NANOS
  }

  function Abs(x: int): nat {
    if x < 0 then -x else x
  }

  /** The boundaries differ by less than half a period. */
  predicate SamePeriod(sample: Window, seconds: int, resetAt: int) {
    seconds > 0 && resetAt > 0 && sample.resetAt > 0 && Abs(resetAt - sample.resetAt) <= (seconds - 1) / 2
  }

  function Find(ledger: seq<LedgerWindow>, key: string): Option<LedgerWindow> {
    if ledger == [] || key == "" then None
    else if ledger[0].key == key then Some(ledger[0])
    else Find(ledger[1..], key)
  }

  predicate LedgerFollows(ledger: seq<LedgerWindow>, key: string, sample: Window) {
    var w := Find(ledger, key);
    w.Some? && w.value.seconds == sample.seconds && SamePeriod(sample, w.value.seconds, w.value.resetAt)
  }

  /** The sample lies in its own period. */
  predicate InPeriod(at: int, w: Window) {
    w.resetAt - w.seconds <= at < w.resetAt
  }

  /** Another window of the same limit already has this duration. */
  predicate Conflicts(active: seq<Window>, w: Window, seconds: int) {
    exists i :: 0 <= i < |active| && Sibling(active[i], w) && active[i].seconds == seconds
  }

  predicate Sibling(s: Window, w: Window) {
    EqualFold(TrimSpace(s.limitName), TrimSpace(w.limitName)) && KeyOf(s) != KeyOf(w)
  }

  /** Everything a merge is given. */
  datatype Sources = Sources(active: seq<Window>, activeAt: int, passive: seq<Window>, passiveAt: int,
                             ledger: seq<LedgerWindow>)

  function SampleTime(w: Window, default: int): int {
    if w.sampledAt.Some? then w.sampledAt.value else default
  }

  /** What a passive window makes of an official one, or None when it may not refresh it. */
  function Refresh(s: Sources, w: Window, p: Window): Option<Window> {
    var sampledAt := SampleTime(p, s.passiveAt);
    var at := Unix(sampledAt);
    if w.seconds <= 0 || p.seconds <= 0 || w.resetAt <= 0 || p.resetAt <= 0 then None
    else if sampledAt <= SampleTime(w, s.activeAt) then None
    else if p.seconds != w.seconds && (!InPeriod(at, p) || Conflicts(s.active, w, p.seconds)) then None
    else if p.seconds == w.seconds && !SamePeriod(p, w.seconds, w.resetAt) &&
            (p.resetAt <= w.resetAt || !InPeriod(at, p) || (at < w.resetAt && !LedgerFollows(s.ledger, KeyOf(w), p)))
                then None
    else
      var moves := p.seconds != w.seconds || !SamePeriod(p, w.seconds, w.resetAt);
      Some(w.(seconds := p.seconds, resetAt := if moves then p.resetAt else w.resetAt,
              used := p.used, remaining := p.remaining, sampledAt := Some(sampledAt)))
  }

  // ---- what the merge promises ---------------------------------------------------------------

  predicate Unused(picks: seq<Option<nat>>, p: nat) {
    forall i :: 0 <= i < |picks| ==> picks[i] != Some(p)
  }

  /** No passive window below `bound` that is still free refreshes official window `i`. */
  ghost predicate NoneBefore(s: Sources, picks: seq<Option<nat>>, i: nat, bound: nat)
    requires i < |s.active|
  {
    forall p: nat :: p < bound && p < |s.passive| && KeyOf(s.passive[p]) == KeyOf(s.active[i]) && Unused(picks, p) ==>
      Refresh(s, s.active[i], s.passive[p]).None?
  }

  /** Official window `i` became `merged` using `pick`: the first free passive window of its key that
      may refresh it, or itself when there is none. */
  ghost predicate Explained(s: Sources, picks: seq<Option<nat>>, i: nat, pick: Option<nat>, merged: Window)
    requires i < |s.active|
  {
    match pick
    case None => merged == s.active[i] && NoneBefore(s, picks, i, |s.passive|)
    case Some(p) =>
      && p < |s.passive| && Unused(picks, p) && KeyOf(s.passive[p]) == KeyOf(s.active[i])
      && Refresh(s, s.active[i], s.passive[p]) == Some(merged)
      && NoneBefore(s, picks, i, p)
  }

  /** The windows of a merge, each explained by its pick. */
  ghost predicate MergedBy(s: Sources, merged: seq<Window>, picks: seq<Option<nat>>) {
    && |merged| == |picks| == |s.active|
    && forall i :: 0 <= i < |merged| ==> Explained(s, picks[..i], i, picks[i], merged[i])
  }

  function At(byKey: map<string, seq<nat>>, key: string): seq<nat> {
    if key in byKey then byKey[key] else []
  }

  predicate Ascending(xs: seq<nat>) {
    forall i, j :: 0 <= i < j < |xs| ==> xs[i] < xs[j]
  }

  /** Passive window `p` has this key and was not used yet. */
  predicate Free(s: Sources, picks: seq<Option<nat>>, key: string, p: nat) {
    p < |s.passive| && KeyOf(s.passive[p]) == key && Unused(picks, p)
  }

  ghost predicate Lists(s: Sources, picks: seq<Option<nat>>, key: string, list: seq<nat>) {
    Ascending(list) && forall p: nat :: p in list <==> Free(s, picks, key, p)
  }

  /** The candidate lists hold exactly the free passive windows, in their order. */
  ghost predicate Candidates(s: Sources, picks: seq<Option<nat>>, byKey: map<string, seq<nat>>) {
    forall key :: Lists(s, picks, key, At(byKey, key))
  }

  ghost predicate Grouped(s: Sources, n: nat, key: string, list: seq<nat>) {
    Ascending(list) && forall q: nat :: q in list <==> q < n && q < |s.passive| && KeyOf(s.passive[q]) == key
  }

  lemma GroupStep(s: Sources, n: nat, key: string, list: seq<nat>)
    requires n < |s.passive| && Grouped(s, n, key, list)
    ensures Grouped(s, n + 1, key, if KeyOf(s.passive[n]) == key then list + [n] else list)
  {
    hide KeyOf;
    if KeyOf(s.passive[n]) == key {
      var longer := list + [n];
      forall i, j | 0 <= i < j < |longer| ensures longer[i] < longer[j] {
        assert longer[i] in list;
      }
      forall q: nat ensures q in longer <==> q < n + 1 && q < |s.passive| && KeyOf(s.passive[q]) == key {
        assert q in longer <==> q in list || q == n;
      }
    }
  }

  method GroupByKey(s: Sources) returns (byKey: map<string, seq<nat>>)
    ensures Candidates(s, [], byKey)
  {
    hide Key, KeyOf, Grouped;
    byKey := map[];
    forall key ensures Grouped(s, 0, key, At(byKey, key)) { NothingGrouped(s, key); }
    for p := 0 to |s.passive|
      invariant forall key :: Grouped(s, p, key, At(byKey, key))
    {
      ghost var before := byKey;
      var key := KeyOf(s.passive[p]);
      byKey := byKey[key := At(byKey, key) + [p]];
      forall k ensures Grouped(s, p + 1, k, At(byKey, k)) { GroupStep(s, p, k, At(before, k)); }
    }
    forall key ensures Lists(s, [], key, At(byKey, key)) { AllGrouped(s, key, At(byKey, key)); }
  }

  lemma NothingGrouped(s: Sources, key: string)
    ensures Grouped(s, 0, key, [])
  {
  }

  lemma AllGrouped(s: Sources, key: string, list: seq<nat>)
    requires Grouped(s, |s.passive|, key, list)
    ensures Lists(s, [], key, list)
  {
  }

  method ConflictsWithSibling(active: seq<Window>, w: Window, seconds: int) returns (conflicts: bool)
    ensures conflicts == Conflicts(active, w, seconds)
  {
    hide Key, KeyOf, Lower, TrimSpace;
    for i := 0 to |active|
      invariant forall k :: 0 <= k < i ==> !(Sibling(active[k], w) && active[k].seconds == seconds)
    {
      if EqualFold(TrimSpace(active[i].limitName), TrimSpace(w.limitName)) && KeyOf(active[i]) != KeyOf(w) &&
         active[i].seconds == seconds {
        assert Sibling(active[i], w);
        return true;
      }
    }
    conflicts := false;
  }

  /** Tries one passive window on an official one. */
  method TryRefresh(s: Sources, w: Window, p: Window) returns (r: Option<Window>)
    ensures r == Refresh(s, w, p)
  {
    hide Conflicts, LedgerFollows, KeyOf;
    if w.seconds <= 0 || p.seconds <= 0 || w.resetAt <= 0 || p.resetAt <= 0 {
      return None;
    }
    var sampledAt := SampleTime(p, s.passiveAt);
    if sampledAt <= SampleTime(w, s.activeAt) {
      return None;
    }
    var next := w;
    var at := Unix(sampledAt);
    if p.seconds != w.seconds {
      if at < p.resetAt - p.seconds || at >= p.resetAt {
        return None;
      }
      var conflicts := ConflictsWithSibling(s.active, w, p.seconds);
      if conflicts {
        return None;
      }
      next := next.(seconds := p.seconds, resetAt := p.resetAt);
    } else if !SamePeriod(p, w.seconds, w.resetAt) {
      if p.resetAt <= w.resetAt || at < p.resetAt - p.seconds || at >= p.resetAt ||
         (at < w.resetAt && !LedgerFollows(s.ledger, KeyOf(w), p)) {
        return None;
      }
      next := next.(resetAt := p.resetAt);
    }
    r := Some(next.(used := p.used, remaining := p.remaining, sampledAt := Some(sampledAt)));
  }

  /** The candidates before `k` were tried: no free window before the next one refreshes this one. */
  lemma FreeBelow(s: Sources, picks: seq<Option<nat>>, i: nat, list: seq<nat>, k: nat)
    requires i < |s.active| && Lists(s, picks, KeyOf(s.active[i]), list) && k <= |list|
    requires forall j :: 0 <= j < k ==> list[j] < |s.passive| && Refresh(s, s.active[i], s.passive[list[j]]).None?
    ensures NoneBefore(s, picks, i, if k < |list| then list[k] else |s.passive|)
  {
    hide KeyOf, Refresh, Unused;
    var bound := if k < |list| then list[k] else |s.passive|;
    forall p: nat | p < bound && p < |s.passive| && KeyOf(s.passive[p]) == KeyOf(s.active[i]) && Unused(picks, p)
      ensures Refresh(s, s.active[i], s.passive[p]).None?
    {
      assert Free(s, picks, KeyOf(s.active[i]), p);
      var j :| 0 <= j < |list| && list[j] == p;
      assert j < k;
    }
  }

  lemma UnusedStep(picks: seq<Option<nat>>, pick: Option<nat>, p: nat)
    ensures Unused(picks + [pick], p) <==> Unused(picks, p) && pick != Some(p)
  {
    var longer := picks + [pick];
    assert longer[|picks|] == pick;
    if Unused(longer, p) {
      forall i | 0 <= i < |picks| ensures picks[i] != Some(p) { assert longer[i] == picks[i]; }
    }
  }

  lemma Without(list: seq<nat>, k: nat)
    requires Ascending(list) && k < |list|
    ensures Ascending(list[..k] + list[k + 1..])
    ensures forall p: nat :: p in list[..k] + list[k + 1..] <==> p in list && p != list[k]
  {
    var shorter := list[..k] + list[k + 1..];
    forall p: nat ensures p in shorter <==> p in list && p != list[k] {
      if p in list && p != list[k] {
        var j :| 0 <= j < |list| && list[j] == p;
        assert shorter[if j < k then j else j - 1] == p;
      }
    }
  }

  /** Taking a passive window removes it, and only it, from the candidates. */
  lemma TakeCandidate(s: Sources, picks: seq<Option<nat>>, byKey: map<string, seq<nat>>, key: string, k: nat)
    requires Candidates(s, picks, byKey) && key in byKey && k < |byKey[key]|
    ensures var list := byKey[key];
      Candidates(s, picks + [Some(list[k])], byKey[key := list[..k] + list[k + 1..]])
  {
    hide KeyOf, Unused, Ascending;
    var list := byKey[key];
    var taken, shorter := list[k], list[..k] + list[k + 1..];
    var after := byKey[key := shorter];
    assert Lists(s, picks, key, At(byKey, key));
    Without(list, k);
    assert Free(s, picks, key, taken) by { assert taken in list; }
    forall other ensures Lists(s, picks + [Some(taken)], other, At(after, other)) {
      assert Lists(s, picks, other, At(byKey, other));
      forall p: nat ensures p in At(after, other) <==> Free(s, picks + [Some(taken)], other, p) {
        UnusedStep(picks, Some(taken), p);
        assert p in At(byKey, other) <==> Free(s, picks, other, p);
      }
    }
  }

  lemma PassCandidate(s: Sources, picks: seq<Option<nat>>, byKey: map<string, seq<nat>>)
    requires Candidates(s, picks, byKey)
    ensures Candidates(s, picks + [None], byKey)
  {
    hide KeyOf, Unused, Ascending;
    forall key ensures Lists(s, picks + [None], key, At(byKey, key)) {
      assert Lists(s, picks, key, At(byKey, key));
      forall p: nat ensures p in At(byKey, key) <==> Free(s, picks + [None], key, p) {
        UnusedStep(picks, None, p);
        assert p in At(byKey, key) <==> Free(s, picks, key, p);
      }
    }
  }

  lemma CandidateFacts(s: Sources, picks: seq<Option<nat>>, key: string, list: seq<nat>, k: nat)
    requires Lists(s, picks, key, list) && k < |list|
    ensures Free(s, picks, key, list[k])
  {
    assert list[k] in list;
  }

  /** The official windows in their order, each as it was or refreshed by a passive window of its own. */
  method MergeLatest(s: Sources) returns (merged: seq<Window>, ghost picks: seq<Option<nat>>)
    ensures MergedBy(s, merged, picks)
  {
    hide KeyOf, Refresh, NoneBefore, Unused, Lists, Explained;
    merged, picks := [], [];
    var byKey := GroupByKey(s);
    for i := 0 to |s.active|
      invariant |merged| == |picks| == i
      invariant Candidates(s, picks, byKey)
      invariant forall k :: 0 <= k < i ==> Explained(s, picks[..k], k, picks[k], merged[k])
    {
      var w, key := s.active[i], KeyOf(s.active[i]);
      var list := At(byKey, key);
      assert Lists(s, picks, key, list);
      var k, r := FirstRefresh(s, picks, i, list);
      ghost var pick: Option<nat> := if r.Some? then Some(list[k]) else None;
      assert Explained(s, picks, i, pick, if r.Some? then r.value else w) by { ExplainedBy(s, picks, i, list, k, r); }
      ghost var before := picks;
      if r.Some? {
        TakeCandidate(s, picks, byKey, key, k);
        byKey := byKey[key := list[..k] + list[k + 1..]];
      } else {
        PassCandidate(s, picks, byKey);
      }
      picks := picks + [pick];
      merged := merged + [if r.Some? then r.value else w];
      assert picks[..i] == before;
      assert forall j :: 0 <= j < i ==> picks[..j] == before[..j];
    }
  }

  /** The first candidate that may refresh official window `i`. */
  method FirstRefresh(s: Sources, ghost picks: seq<Option<nat>>, i: nat, list: seq<nat>)
    returns (k: nat, r: Option<Window>)
    requires i < |s.active| && Lists(s, picks, KeyOf(s.active[i]), list)
    ensures k <= |list| && (r.Some? <==> k < |list|)
    ensures r.Some? ==> list[k] < |s.passive| && r == Refresh(s, s.active[i], s.passive[list[k]])
    ensures NoneBefore(s, picks, i, if k < |list| then list[k] else |s.passive|)
  {
    hide KeyOf, Refresh, NoneBefore, Unused, Lists;
    k, r := 0, None;
    while k < |list|
      invariant 0 <= k <= |list| && r.None?
      invariant forall j :: 0 <= j < k ==> list[j] < |s.passive| && Refresh(s, s.active[i], s.passive[list[j]]).None?
    {
      CandidateFacts(s, picks, KeyOf(s.active[i]), list, k);
      r := TryRefresh(s, s.active[i], s.passive[list[k]]);
      if r.Some? {
        FreeBelow(s, picks, i, list, k);
        return;
      }
      k := k + 1;
    }
    FreeBelow(s, picks, i, list, k);
  }

  lemma ExplainedBy(s: Sources, picks: seq<Option<nat>>, i: nat, list: seq<nat>, k: nat, r: Option<Window>)
    requires i < |s.active| && Lists(s, picks, KeyOf(s.active[i]), list)
    requires k <= |list| && (r.Some? <==> k < |list|)
    requires r.Some? ==> list[k] < |s.passive| && r == Refresh(s, s.active[i], s.passive[list[k]])
    requires NoneBefore(s, picks, i, if k < |list| then list[k] else |s.passive|)
    ensures Explained(s, picks, i, if r.Some? then Some(list[k]) else None, if r.Some? then r.value else s.active[i])
  {
    hide KeyOf, Refresh, NoneBefore;
    if r.Some? { CandidateFacts(s, picks, KeyOf(s.active[i]), list, k); }
  }

  // ---- what a refresh may change -------------------------------------------------------------

  /** A refresh keeps the window's identity and takes a strictly newer sample. With the same duration the
      boundary never moves back, and moves forward only into the period of the sample, once the official
      one is over or the ledger has followed. A changed duration brings its own boundary, around the
      sample, and never the duration an official sibling has. */
  lemma RefreshMeaning(s: Sources, w: Window, p: Window)
    requires Refresh(s, w, p).Some?
    ensures var r, at := Refresh(s, w, p).value, Unix(SampleTime(p, s.passiveAt));
      && r.limitName == w.limitName && r.kind == w.kind && KeyOf(r) == KeyOf(w)
      && r.used == p.used && r.remaining == p.remaining
      && r.sampledAt == Some(SampleTime(p, s.passiveAt)) && r.sampledAt.value > SampleTime(w, s.activeAt)
      && (r.seconds == w.seconds ==> r.resetAt >= w.resetAt)
      && (r.seconds == w.seconds && r.resetAt != w.resetAt ==>
            r.resetAt == p.resetAt && InPeriod(at, r) && (w.resetAt <= at || LedgerFollows(s.ledger, KeyOf(w), p)))
      && (r.seconds != w.seconds ==>
            r.seconds == p.seconds && r.resetAt == p.resetAt && InPeriod(at, r) &&
            forall i :: 0 <= i < |s.active| && Sibling(s.active[i], w) ==> s.active[i].seconds != r.seconds)
  {
    hide Key, LedgerFollows, Sibling;
  }

  /** Over a whole merge: the same windows in the same order, distinct passive windows used, and every
      clause above for each of them. */
  lemma MergeMeaning(s: Sources, merged: seq<Window>, picks: seq<Option<nat>>, i: nat)
    requires MergedBy(s, merged, picks) && i < |merged|
    ensures KeyOf(merged[i]) == KeyOf(s.active[i])
    ensures forall j :: 0 <= j < |merged| && j != i && picks[i].Some? ==> picks[j] != picks[i]
    ensures merged[i].seconds == s.active[i].seconds ==> merged[i].resetAt >= s.active[i].resetAt
    ensures SampleTime(merged[i], s.activeAt) >= SampleTime(s.active[i], s.activeAt)
    ensures SampleTime(merged[i], s.activeAt) == SampleTime(s.active[i], s.activeAt) ==> merged[i] == s.active[i]
  {
    hide KeyOf, Refresh, NoneBefore;
    assert Explained(s, picks[..i], i, picks[i], merged[i]);
    if picks[i].Some? {
      RefreshMeaning(s, s.active[i], s.passive[picks[i].value]);
      forall j | 0 <= j < |merged| && j != i ensures picks[j] != picks[i] {
        assert Explained(s, picks[..j], j, picks[j], merged[j]);
        if j < i { assert picks[..i][j] == picks[j]; } else { assert picks[..j][i] == picks[i]; }
      }
    }
  }

  lemma ExplainedOnce(s: Sources, picks: seq<Option<nat>>, i: nat, a: Option<nat>, x: Window, b: Option<nat>, y: Window)
    requires i < |s.active| && Explained(s, picks, i, a, x) && Explained(s, picks, i, b, y)
    ensures a == b && x == y
  {
    hide KeyOf, Refresh, Unused;
    if a.Some? && b.Some? {
      assert a.value <= b.value && b.value <= a.value;
    }
  }

  /** The explanation leaves no choice: a merge has one result. */
  lemma {:induction false} MergeUnique(s: Sources, merged: seq<Window>, picks: seq<Option<nat>>,
                                       other: seq<Window>, others: seq<Option<nat>>, n: nat)
    requires MergedBy(s, merged, picks) && MergedBy(s, other, others) && n <= |s.active|
    ensures merged[..n] == other[..n] && picks[..n] == others[..n]
    ensures n == |s.active| ==> merged == other
  {
    hide Explained;
    if n > 0 {
      MergeUnique(s, merged, picks, other, others, n - 1);
      ExplainedOnce(s, picks[..n - 1], n - 1, picks[n - 1], merged[n - 1], others[n - 1], other[n - 1]);
      assert merged[..n] == merged[..n - 1] + [merged[n - 1]] && other[..n] == other[..n - 1] + [other[n - 1]];
      assert picks[..n] == picks[..n - 1] + [picks[n - 1]] && others[..n] == others[..n - 1] + [others[n - 1]];
    }
    if n == |s.active| { assert merged[..n] == merged && other[..n] == other; }
  }

  // ---- choosing between the two samples ------------------------------------------------------

  datatype Usage = Usage(provider: string, windows: seq<Window>, resetCredits: int, anthropicCredits: int)

  predicate Newer(passive: Option<Usage>, passiveAt: Option<int>, activeAt: int) {
    passive.Some? && passiveAt.Some? && passiveAt.value > activeAt
  }

  predicate IsCodex(u: Usage) {
    EqualFold(TrimSpace(u.provider), "codex")
  }

  /** The official usage unless the passive one is newer; then, for Codex, the official one with its windows
      merged, and for the others the passive one with the official credits. */
  method LatestUsage(active: Option<Usage>, activeAt: int, passive: Option<Usage>, passiveAt: Option<int>,
                     ledger: seq<LedgerWindow>)
    returns (latest: Option<Usage>, ghost picks: seq<Option<nat>>)
    ensures active.None? ==> latest == passive
    ensures active.Some? && !Newer(passive, passiveAt, activeAt) ==> latest == active
    ensures active.Some? && Newer(passive, passiveAt, activeAt) && IsCodex(active.value) ==>
              && latest.Some? && latest.value == active.value.(windows := latest.value.windows)
              && MergedBy(Sources(active.value.windows, activeAt, passive.value.windows, passiveAt.value, ledger),
                          latest.value.windows, picks)
    ensures active.Some? && Newer(passive, passiveAt, activeAt) && !IsCodex(active.value) ==>
              latest.Some? && latest.value ==
              passive.value.(resetCredits := active.value.resetCredits,
                             anthropicCredits := active.value.anthropicCredits)
  {
    hide Lower, TrimSpace, MergedBy;
    picks := [];
    if active.None? {
      return passive, picks;
    }
    if passive.None? || passiveAt.None? || passiveAt.value <= activeAt {
      return active, picks;
    }
    var a, p := active.value, passive.value;
    if EqualFold(TrimSpace(a.provider), "codex") {
      var s := Sources(a.windows, activeAt, p.windows, passiveAt.value, ledger);
      var merged;
      merged, picks := MergeLatest(s);
      return Some(a.(windows := merged)), picks;
    }
    latest := Some(p.(resetCredits := a.resetCredits, anthropicCredits := a.anthropicCredits));
  }
}
