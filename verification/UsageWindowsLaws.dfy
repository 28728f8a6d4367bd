/** Exactly when a passive sample refreshes an official window, in sizes and times, and what a merge must take. */
module UsageWindowsLaws {
  import opened Names
  import opened Seqs
  import opened UsageWindows

  // ---- the rules -----------------------------------------------------------------------------

  /** A window goes by its limit and its kind, trimmed and in lower case; one without either has no key. */
  lemma KeyTells(w: Window)
    ensures var limit, kind := Lower(TrimSpace(w.limitName)), Lower(TrimSpace(w.kind));
      KeyOf(w) == if limit == "" && kind == "" then "" else limit + "|" + kind
  {
    hide Lower, TrimSpace;
  }

  /** When the window was sampled, in nanoseconds; a window without a time has that of its snapshot. */
  function Time(w: Window, default: int): int {
    match w.sampledAt
    case Some(at) => at
    case None => default
  }

  /** The boundaries are apart by less than half the duration. */
  predicate Near(a: int, b: int, seconds: int) {
    2 * (a - b) < seconds && 2 * (b - a) < seconds
  }

  /** The second `at` lies in the period that ends at the window's boundary. */
  predicate Inside(at: int, w: Window) {
    w.resetAt - w.seconds <= at && at < w.resetAt
  }

  predicate PositiveSizes(w: Window) {
    w.seconds > 0 && w.resetAt > 0
  }

  /** The first ledger window with the key has the sample's duration, and its boundary up to jitter. */
  ghost predicate Followed(ledger: seq<LedgerWindow>, key: string, p: Window) {
    && key != ""
    && exists k :: 0 <= k < |ledger| && ledger[k].key == key && (forall j :: 0 <= j < k ==> ledger[j].key != key) &&
                   ledger[k].seconds == p.seconds > 0 && ledger[k].resetAt > 0 && p.resetAt > 0 &&
                   Near(ledger[k].resetAt, p.resetAt, p.seconds)
  }

  predicate OfLimit(x: Window, w: Window) {
    Lower(TrimSpace(x.limitName)) == Lower(TrimSpace(w.limitName))
  }

  /** No other official window of the limit has this duration. */
  ghost predicate NoSibling(active: seq<Window>, w: Window, seconds: int) {
    forall i :: 0 <= i < |active| && OfLimit(active[i], w) && KeyOf(active[i]) != KeyOf(w) ==>
      active[i].seconds != seconds
  }

  /** The passive window is a newer sample of the same period, of one that follows it, or of a new duration. */
  ghost predicate MayRefresh(s: Sources, w: Window, p: Window) {
    var at := Time(p, s.passiveAt) / NANOS;
    && PositiveSizes(w) && PositiveSizes(p)
    && Time(p, s.passiveAt) > Time(w, s.activeAt)
    && if p.seconds == w.seconds then
         || Near(w.resetAt, p.resetAt, w.seconds)
         || (p.resetAt > w.resetAt && Inside(at, p) && (w.resetAt <= at || Followed(s.ledger, KeyOf(w), p)))
       else Inside(at, p) && NoSibling(s.active, w, p.seconds)
  }

  /** The official window with the sample's usage and time; its boundary stays while the period does. */
  function RefreshedWindow(s: Sources, w: Window, p: Window): Window {
    w.(seconds := p.seconds,
       resetAt := if p.seconds == w.seconds && Near(w.resetAt, p.resetAt, w.seconds) then w.resetAt else p.resetAt,
       used := p.used, remaining := p.remaining, sampledAt := Some(Time(p, s.passiveAt)))
  }

  lemma {:induction false} FindIsFirst(ledger: seq<LedgerWindow>, key: string, k: nat)
    requires k < |ledger| && ledger[k].key == key != "" && forall j :: 0 <= j < k ==> ledger[j].key != key
    ensures Find(ledger, key) == Some(ledger[k])
  {
    if k > 0 { FindIsFirst(ledger[1..], key, k - 1); }
  }

  lemma {:induction false} FindSome(ledger: seq<LedgerWindow>, key: string) returns (k: nat)
    requires Find(ledger, key).Some?
    ensures key != "" && k < |ledger| && ledger[k].key == key && ledger[k] == Find(ledger, key).value
    ensures forall j :: 0 <= j < k ==> ledger[j].key != key
  {
    k := 0;
    if ledger[0].key != key {
      k := FindSome(ledger[1..], key);
      k := k + 1;
      forall j | 0 <= j < k ensures ledger[j].key != key {
        if j > 0 { assert ledger[j] == ledger[1..][j - 1]; }
      }
    }
  }

  lemma NearExactly(p: Window, seconds: int, resetAt: int)
    ensures SamePeriod(p, seconds, resetAt) <==>
      seconds > 0 && resetAt > 0 && p.resetAt > 0 && Near(resetAt, p.resetAt, seconds)
  {
  }

  lemma FollowedExactly(ledger: seq<LedgerWindow>, key: string, p: Window)
    ensures LedgerFollows(ledger, key, p) <==> Followed(ledger, key, p)
  {
    hide SamePeriod, Near;
    if Find(ledger, key).Some? {
      var k := FindSome(ledger, key);
      NearExactly(p, ledger[k].seconds, ledger[k].resetAt);
    }
    if Followed(ledger, key, p) {
      var k :| 0 <= k < |ledger| && ledger[k].key == key && (forall j :: 0 <= j < k ==> ledger[j].key != key) &&
               ledger[k].seconds == p.seconds > 0 && ledger[k].resetAt > 0 && p.resetAt > 0 &&
               Near(ledger[k].resetAt, p.resetAt, p.seconds);
      FindIsFirst(ledger, key, k);
      NearExactly(p, ledger[k].seconds, ledger[k].resetAt);
    }
  }

  lemma SiblingExactly(active: seq<Window>, w: Window, seconds: int)
    ensures Conflicts(active, w, seconds) <==> !NoSibling(active, w, seconds)
  {
    hide KeyOf, Lower, TrimSpace;
  }

  /** A passive window refreshes an official one if and only if it may, and then to this. */
  lemma RefreshExactly(s: Sources, w: Window, p: Window)
    ensures Refresh(s, w, p) == if MayRefresh(s, w, p) then Some(RefreshedWindow(s, w, p)) else None
  {
    hide Conflicts, NoSibling, LedgerFollows, Followed, KeyOf, SamePeriod, Near;
    FollowedExactly(s.ledger, KeyOf(w), p);
    SiblingExactly(s.active, w, p.seconds);
    NearExactly(p, w.seconds, w.resetAt);
  }

  // ---- a whole merge -------------------------------------------------------------------------

  /** Passive window `p` has the key of official window `i` and went to none of those before it. */
  predicate Available(s: Sources, picks: seq<Option<nat>>, i: nat, p: nat) {
    && i < |s.active| && i <= |picks| && p < |s.passive|
    && KeyOf(s.passive[p]) == KeyOf(s.active[i])
    && forall j :: 0 <= j < i ==> picks[j] != Some(p)
  }

  /** Each official window takes the first available passive window that may refresh it, and stays as it is if and
      only if there is none. */
  lemma MergeExactly(s: Sources, merged: seq<Window>, picks: seq<Option<nat>>, i: nat)
    requires MergedBy(s, merged, picks) && i < |s.active|
    ensures picks[i].Some? ==>
      && Available(s, picks, i, picks[i].value) && MayRefresh(s, s.active[i], s.passive[picks[i].value])
      && merged[i] == RefreshedWindow(s, s.active[i], s.passive[picks[i].value])
      && forall p: nat :: p < picks[i].value && Available(s, picks, i, p) ==> !MayRefresh(s, s.active[i], s.passive[p])
    ensures picks[i].None? ==>
      && merged[i] == s.active[i]
      && forall p: nat :: Available(s, picks, i, p) ==> !MayRefresh(s, s.active[i], s.passive[p])
  {
    hide KeyOf, MayRefresh, Refresh, RefreshedWindow;
    assert Explained(s, picks[..i], i, picks[i], merged[i]);
    forall p: nat | Available(s, picks, i, p)
      ensures Unused(picks[..i], p) && (Refresh(s, s.active[i], s.passive[p]).None? <==>
                                        !MayRefresh(s, s.active[i], s.passive[p]))
    {
      RefreshExactly(s, s.active[i], s.passive[p]);
    }
    if picks[i].Some? {
      RefreshExactly(s, s.active[i], s.passive[picks[i].value]);
      forall j | 0 <= j < i ensures picks[j] != picks[i] { assert picks[..i][j] == picks[j]; }
      assert Available(s, picks, i, picks[i].value);
    }
  }

  /** The first available passive window decides when it may refresh. */
  lemma FirstAvailableTaken(s: Sources, merged: seq<Window>, picks: seq<Option<nat>>, i: nat, p: nat)
    requires MergedBy(s, merged, picks) && Available(s, picks, i, p) && MayRefresh(s, s.active[i], s.passive[p])
    requires forall q: nat :: q < p ==> !Available(s, picks, i, q)
    ensures picks[i] == Some(p) && merged[i] == RefreshedWindow(s, s.active[i], s.passive[p])
  {
    hide MayRefresh, Available, RefreshedWindow, MergedBy;
    MergedSizes(s, merged, picks);
    AvailableBounds(s, picks, i, p);
    MergeExactly(s, merged, picks, i);
  }

  lemma MergedSizes(s: Sources, merged: seq<Window>, picks: seq<Option<nat>>)
    requires MergedBy(s, merged, picks)
    ensures |merged| == |picks| == |s.active|
  {
  }

  lemma AvailableBounds(s: Sources, picks: seq<Option<nat>>, i: nat, p: nat)
    requires Available(s, picks, i, p)
    ensures i < |s.active| && p < |s.passive|
  {
  }

  /** A period that is over rolls forward to the boundary, the usage and the time of a newer sample in its own. */
  lemma RolloverTaken(s: Sources, merged: seq<Window>, picks: seq<Option<nat>>, i: nat, p: nat)
    requires MergedBy(s, merged, picks) && Available(s, picks, i, p)
    requires forall q: nat :: q < p ==> !Available(s, picks, i, q)
    requires var w, x := s.active[i], s.passive[p];
      && PositiveSizes(w) && x.seconds == w.seconds && x.resetAt > w.resetAt && !Near(w.resetAt, x.resetAt, w.seconds)
      && Time(x, s.passiveAt) > Time(w, s.activeAt)
      && Inside(Time(x, s.passiveAt) / NANOS, x) && w.resetAt <= Time(x, s.passiveAt) / NANOS
    ensures var w, x := s.active[i], s.passive[p];
      i < |merged| && merged[i] == w.(resetAt := x.resetAt, used := x.used, remaining := x.remaining,
                                      sampledAt := Some(Time(x, s.passiveAt)))
  {
    hide MergedBy, Available, Near;
    MergedSizes(s, merged, picks);
    AvailableBounds(s, picks, i, p);
    FirstAvailableTaken(s, merged, picks, i, p);
  }

  /** A new duration is taken over with its boundary when no official sibling has it. */
  lemma ChangedDurationTaken(s: Sources, merged: seq<Window>, picks: seq<Option<nat>>, i: nat, p: nat)
    requires MergedBy(s, merged, picks) && Available(s, picks, i, p)
    requires forall q: nat :: q < p ==> !Available(s, picks, i, q)
    requires var w, x := s.active[i], s.passive[p];
      && PositiveSizes(w) && PositiveSizes(x) && x.seconds != w.seconds && NoSibling(s.active, w, x.seconds)
      && Time(x, s.passiveAt) > Time(w, s.activeAt) && Inside(Time(x, s.passiveAt) / NANOS, x)
    ensures var w, x := s.active[i], s.passive[p];
      i < |merged| && merged[i] == w.(seconds := x.seconds, resetAt := x.resetAt, used := x.used,
                                      remaining := x.remaining, sampledAt := Some(Time(x, s.passiveAt)))
  {
    hide MergedBy, Available, NoSibling, Near;
    MergedSizes(s, merged, picks);
    AvailableBounds(s, picks, i, p);
    FirstAvailableTaken(s, merged, picks, i, p);
  }
}
