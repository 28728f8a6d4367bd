/** Restoring the client's date sentence to its ASCII form: in a whole text, and only inside
    system-reminder segments. */
module Dateline {

  const LENGTH := 27
  const OPEN := "<system-reminder>"
  const CLOSE := "</system-reminder>"
  const MIDDLE := "s date is "

  predicate Digit(c: char) {
    '0' <= c <= '9'
  }

  predicate Apostrophe(c: char) {
    c in {'\'', '\U{2019}', '\U{02BC}', '\U{02B9}'}
  }

  predicate Separator(c: char) {
    c in {'-', '/'}
  }

  /** `Today's date is YYYY-MM-DD.` with any of the apostrophes and separators. */
  predicate Sentence(x: string) {
    && |x| == LENGTH && x[..5] == "Today" && Apostrophe(x[5]) && x[6..16] == MIDDLE
    && Digit(x[16]) && Digit(x[17]) && Digit(x[18]) && Digit(x[19]) && Separator(x[20])
    && Digit(x[21]) && Digit(x[22]) && Separator(x[23]) && Digit(x[24]) && Digit(x[25]) && x[26] == '.'
  }

  /** The two separators agree, as in every sentence the client writes. */
  predicate Uniform(x: string) {
    Sentence(x) && x[20] == x[23]
  }

  function Fix(x: string): string
    requires Sentence(x)
  {
    if x[20] != x[23] then x
    else "Today's date is " + x[16..20] + "-" + x[21..23] + "-" + x[24..26] + "."
  }

  /** Replaces every sentence, from the left. */
  function Replace(s: string): (r: string)
    ensures |r| == |s|
  {
    if s == "" then ""
    else if |s| >= LENGTH && Sentence(s[..LENGTH]) then
      FixKeeps(s[..LENGTH]);
      Fix(s[..LENGTH]) + Replace(s[LENGTH..])
    else [s[0]] + Replace(s[1..])
  }

  predicate StartsAt(s: string, i: nat, t: string) {
    i + |t| <= |s| && s[i..i + |t|] == t
  }

  predicate Contains(s: string, t: string) {
    exists i :: 0 <= i <= |s| && StartsAt(s, i, t)
  }

  function Canonicalize(s: string): string {
    if !Contains(s, MIDDLE) then s else Replace(s)
  }

  // ---- one sentence --------------------------------------------------------------------------

  lemma FixKeeps(x: string)
    requires Sentence(x)
    ensures Sentence(Fix(x)) && |Fix(x)| == LENGTH && Fix(Fix(x)) == Fix(x)
    ensures !Uniform(x) ==> Fix(x) == x
    ensures Uniform(x) ==> Fix(x)[5] == '\'' && Fix(x)[20] == Fix(x)[23] == '-'
    ensures forall i :: 0 <= i < LENGTH && i !in {5, 20, 23} ==> Fix(x)[i] == x[i]
  {
    if x[20] == x[23] {
      var y := Fix(x);
      FixedChars(x);
      assert y[..5] == x[..5] && y[6..16] == x[6..16];
      assert y[16..20] == x[16..20] && y[21..23] == x[21..23] && y[24..26] == x[24..26];
    }
  }

  lemma FixedChars(x: string)
    requires Sentence(x) && x[20] == x[23]
    ensures |Fix(x)| == LENGTH && Fix(x)[5] == '\'' && Fix(x)[20] == Fix(x)[23] == '-'
    ensures forall i :: 0 <= i < LENGTH && i !in {5, 20, 23} ==> Fix(x)[i] == x[i]
  {
    var y := Fix(x);
    assert y[..5] == "Today" && y[6..16] == MIDDLE && x[..5] == "Today" && x[6..16] == MIDDLE;
    forall i | 0 <= i < LENGTH && i !in {5, 20, 23} ensures y[i] == x[i] {
      if i < 5 { assert y[i] == y[..5][i] && x[i] == x[..5][i]; }
      else if i < 16 { assert y[i] == y[6..16][i - 6] && x[i] == x[6..16][i - 6]; }
    }
  }

  /** A sentence has one capital T, in front, and no angle bracket. */
  lemma SentenceChars(x: string, i: nat)
    requires Sentence(x) && i < LENGTH
    ensures x[i] == 'T' <==> i == 0
    ensures x[i] != '<' && x[i] != '>'
  {
    if i < 5 { assert x[i] == x[..5][i]; }
    else if 6 <= i < 16 { assert x[i] == x[6..16][i - 6]; }
  }

  predicate IsDate(year: string, month: string, day: string) {
    && |year| == 4 && |month| == |day| == 2
    && (forall i :: 0 <= i < 4 ==> year[i] in "0123456789")
    && (forall i :: 0 <= i < 2 ==> month[i] in "0123456789") && (forall i :: 0 <= i < 2 ==> day[i] in "0123456789")
  }

  function Spelt(apostrophe: char, year: string, p: char, month: string, q: char, day: string): string {
    "Today" + [apostrophe] + "s date is " + year + [p] + month + [q] + day + "."
  }

  lemma SpeltParts(apostrophe: char, year: string, p: char, month: string, q: char, day: string)
    requires |year| == 4 && |month| == |day| == 2
    ensures var x := Spelt(apostrophe, year, p, month, q, day);
      && |x| == LENGTH && x[..5] == "Today" && x[5] == apostrophe && x[6..16] == MIDDLE && x[16..20] == year
      && x[20] == p && x[21..23] == month && x[23] == q && x[24..26] == day && x[26] == '.'
  {
  }

  lemma DigitsAt(x: string, i: nat, part: string)
    requires i + |part| <= |x| && x[i..i + |part|] == part && forall k :: 0 <= k < |part| ==> part[k] in "0123456789"
    ensures forall k :: i <= k < i + |part| ==> Digit(x[k])
  {
    forall k | i <= k < i + |part| ensures Digit(x[k]) { assert part[k - i] == x[k]; }
  }

  /** A date spelt with any apostrophe and separators is a sentence; with equal separators it is put in ASCII form,
      otherwise it is left alone. */
  lemma SpeltIsSentence(apostrophe: char, year: string, p: char, month: string, q: char, day: string)
    requires apostrophe in {'\'', '\U{2019}', '\U{02BC}', '\U{02B9}'} && p in {'-', '/'} && q in {'-', '/'}
    requires IsDate(year, month, day)
    ensures var x := Spelt(apostrophe, year, p, month, q, day);
      Sentence(x) && Fix(x) == if p == q then Spelt('\'', year, '-', month, '-', day) else x
  {
    hide Spelt, Digit;
    var x := Spelt(apostrophe, year, p, month, q, day);
    SpeltParts(apostrophe, year, p, month, q, day);
    DigitsAt(x, 16, year);
    DigitsAt(x, 21, month);
    DigitsAt(x, 24, day);
    assert Sentence(x);
    if p == q { AsciiIs(year, month, day); }
  }

  lemma AsciiIs(year: string, month: string, day: string)
    ensures "Today's date is " + year + "-" + month + "-" + day + "." == Spelt('\'', year, '-', month, '-', day)
  {
    assert "Today" + "'" + "s date is " == "Today's date is ";
  }

  /** And every sentence is one. */
  lemma SentenceIsSpelt(x: string)
    requires Sentence(x)
    ensures x[5] in {'\'', '\U{2019}', '\U{02BC}', '\U{02B9}'} && x[20] in {'-', '/'} && x[23] in {'-', '/'}
    ensures IsDate(x[16..20], x[21..23], x[24..26])
    ensures x == Spelt(x[5], x[16..20], x[20], x[21..23], x[23], x[24..26])
  {
    hide Digit;
    DateIs(x);
    assert x == x[..5] + [x[5]] + x[6..16] + x[16..20] + [x[20]] + x[21..23] + [x[23]] + x[24..26] + [x[26]];
  }

  lemma DateIs(x: string)
    requires Sentence(x)
    ensures IsDate(x[16..20], x[21..23], x[24..26])
  {
    hide Digit;
    DigitIs(x[16]);
    DigitIs(x[17]);
    DigitIs(x[18]);
    DigitIs(x[19]);
    DigitIs(x[21]);
    DigitIs(x[22]);
    DigitIs(x[24]);
    DigitIs(x[25]);
  }

  lemma DigitIs(c: char)
    requires Digit(c)
    ensures c in "0123456789"
  {
    var digits := "0123456789";
    assert digits[c as int - '0' as int] == c;
  }

  // ---- whole texts ---------------------------------------------------------------------------

  predicate SentenceAt(s: string, p: nat) {
    p + LENGTH <= |s| && Sentence(s[p..p + LENGTH])
  }

  lemma SentenceAtChars(s: string, p: nat, i: nat)
    requires SentenceAt(s, p) && p <= i < p + LENGTH
    ensures s[i] == 'T' <==> i == p
    ensures s[i] != '<' && s[i] != '>'
  {
    hide Sentence;
    SentenceChars(s[p..p + LENGTH], i - p);
  }

  lemma ReplaceSentence(s: string)
    requires SentenceAt(s, 0)
    ensures Replace(s)[..LENGTH] == Fix(s[..LENGTH]) && Replace(s)[LENGTH..] == Replace(s[LENGTH..])
    ensures Replace(s)[0] == 'T' && SentenceAt(Replace(s), 0)
  {
    hide Sentence;
    assert s[0..LENGTH] == s[..LENGTH];
    FixKeeps(s[..LENGTH]);
    SentenceChars(Fix(s[..LENGTH]), 0);
    var r := Replace(s);
    assert r[0..LENGTH] == r[..LENGTH];
  }

  lemma ReplaceLetter(s: string)
    requires s != "" && !SentenceAt(s, 0)
    ensures Replace(s) == [s[0]] + Replace(s[1..])
  {
    hide Sentence;
    if |s| >= LENGTH { assert s[0..LENGTH] == s[..LENGTH]; }
  }

  /** Where the result shows no capital T, nothing was changed. */
  lemma {:induction false} NoTUnchanged(s: string, n: nat)
    requires n <= |s| && forall i :: 0 <= i < n ==> Replace(s)[i] != 'T'
    ensures Replace(s)[..n] == s[..n]
    decreases |s|
  {
    hide Sentence, Fix;
    if n > 0 {
      if SentenceAt(s, 0) { ReplaceSentence(s); }
      ReplaceLetter(s);
      forall i | 0 <= i < n - 1 ensures Replace(s[1..])[i] != 'T' { assert Replace(s)[i + 1] == Replace(s[1..])[i]; }
      NoTUnchanged(s[1..], n - 1);
      assert s[..n] == [s[0]] + s[1..][..n - 1];
    }
  }

  /** Replacing never makes a sentence where there was none. */
  lemma NoNewSentence(s: string)
    requires s != "" && SentenceAt(Replace(s), 0)
    ensures SentenceAt(s, 0)
  {
    hide Sentence, Fix;
    if !SentenceAt(s, 0) {
      ReplaceLetter(s);
      var r := Replace(s);
      forall i | 0 <= i < LENGTH - 1 ensures Replace(s[1..])[i] != 'T' {
        SentenceAtChars(r, 0, i + 1);
        assert r[i + 1] == Replace(s[1..])[i];
      }
      NoTUnchanged(s[1..], LENGTH - 1);
      SameStart(s, r);
    }
  }

  lemma SameStart(s: string, r: string)
    requires |s| == |r| >= LENGTH && r[0] == s[0] && r[1..][..LENGTH - 1] == s[1..][..LENGTH - 1]
    ensures SentenceAt(r, 0) == SentenceAt(s, 0)
  {
    hide Sentence;
    assert r[0..LENGTH] == [r[0]] + r[1..][..LENGTH - 1] && s[0..LENGTH] == [s[0]] + s[1..][..LENGTH - 1];
  }

  /** Canonicalising twice is canonicalising once, on every text. */
  lemma {:induction false} ReplaceIdempotent(s: string)
    ensures Replace(Replace(s)) == Replace(s)
    decreases |s|
  {
    hide Sentence, Fix;
    if s != "" {
      var r := Replace(s);
      if SentenceAt(s, 0) {
        ReplaceSentence(s);
        ReplaceSentence(r);
        assert s[0..LENGTH] == s[..LENGTH];
        FixKeeps(s[..LENGTH]);
        ReplaceIdempotent(s[LENGTH..]);
        assert r == r[..LENGTH] + r[LENGTH..] && Replace(r) == Replace(r)[..LENGTH] + Replace(r)[LENGTH..];
      } else {
        ReplaceLetter(s);
        if SentenceAt(r, 0) { NoNewSentence(s); }
        ReplaceLetter(r);
        assert r[1..] == Replace(s[1..]);
        ReplaceIdempotent(s[1..]);
      }
    }
  }

  lemma SliceOfRest(s: string, step: nat, a: nat, b: nat)
    requires step <= a <= b <= |s|
    ensures s[a..b] == s[step..][a - step..b - step]
  {
  }

  /** Every sentence is put in its canonical form. */
  lemma {:induction false} SentencesFixed(s: string, p: nat)
    requires SentenceAt(s, p)
    ensures Replace(s)[p..p + LENGTH] == Fix(s[p..p + LENGTH])
    decreases |s|
  {
    hide Sentence, Fix, Replace;
    var r := Replace(s);
    if SentenceAt(s, 0) {
      ReplaceSentence(s);
      if p < LENGTH {
        SentenceAtChars(s, p, p);
        SentenceAtChars(s, 0, p);
        assert s[0..LENGTH] == s[..LENGTH] && r[0..LENGTH] == r[..LENGTH];
      } else {
        Shifted(s, LENGTH, p - LENGTH);
        SentencesFixed(s[LENGTH..], p - LENGTH);
        SliceOfRest(r, LENGTH, p, p + LENGTH);
      }
    } else {
      ReplaceLetter(s);
      Shifted(s, 1, p - 1);
      SentencesFixed(s[1..], p - 1);
      assert r[1..] == Replace(s[1..]);
      SliceOfRest(r, 1, p, p + LENGTH);
    }
  }

  /** Character `p` lies in a sentence with equal separators. */
  ghost predicate InUniform(s: string, p: nat) {
    exists q :: 0 <= q <= p < q + LENGTH && SentenceAt(s, q) && Uniform(s[q..q + LENGTH])
  }

  lemma InUniformRest(s: string, n: nat, p: nat)
    requires n <= |s| && InUniform(s[n..], p)
    ensures InUniform(s, n + p)
  {
    hide Sentence, Uniform;
    var q :| 0 <= q <= p < q + LENGTH && SentenceAt(s[n..], q) && Uniform(s[n..][q..q + LENGTH]);
    Shifted(s, n, q);
  }

  /** Only characters of such sentences change. */
  lemma {:induction false} ChangedOnlyUniform(s: string, p: nat)
    requires p < |s| && Replace(s)[p] != s[p]
    ensures InUniform(s, p)
    decreases |s|
  {
    hide Sentence, Fix, Uniform, InUniform, Replace;
    var r := Replace(s);
    if SentenceAt(s, 0) {
      ReplaceSentence(s);
      if p < LENGTH {
        assert s[0..LENGTH] == s[..LENGTH] && r[p] == r[..LENGTH][p] && s[p] == s[..LENGTH][p];
        FixKeeps(s[..LENGTH]);
        FirstUniform(s, p);
      } else {
        assert r[p] == r[LENGTH..][p - LENGTH] && s[p] == s[LENGTH..][p - LENGTH];
        ChangedOnlyUniform(s[LENGTH..], p - LENGTH);
        InUniformRest(s, LENGTH, p - LENGTH);
      }
    } else {
      ReplaceLetter(s);
      assert r[1..] == Replace(s[1..]) && s[p] == s[1..][p - 1];
      ChangedOnlyUniform(s[1..], p - 1);
      InUniformRest(s, 1, p - 1);
    }
  }

  lemma FirstUniform(s: string, p: nat)
    requires SentenceAt(s, 0) && Uniform(s[0..LENGTH]) && p < LENGTH
    ensures InUniform(s, p)
  {
  }

  lemma Shifted(s: string, n: nat, q: nat)
    requires n <= |s|
    ensures SentenceAt(s[n..], q) == SentenceAt(s, n + q)
    ensures SentenceAt(s, n + q) ==> s[n..][q..q + LENGTH] == s[n + q..n + q + LENGTH]
  {
    hide Sentence;
    if n + q + LENGTH <= |s| { assert s[n..][q..q + LENGTH] == s[n + q..n + q + LENGTH]; }
  }

  /** The quick look for the middle of a sentence only saves work. */
  lemma CanonicalizeIsReplace(s: string)
    ensures Canonicalize(s) == Replace(s)
  {
    hide Sentence, Fix, Uniform;
    if !Contains(s, MIDDLE) {
      forall q: nat ensures !SentenceAt(s, q) {
        if SentenceAt(s, q) { MiddleOf(s, q); }
      }
      forall p | 0 <= p < |s| ensures Replace(s)[p] == s[p] {
        if Replace(s)[p] != s[p] { ChangedOnlyUniform(s, p); }
      }
    }
  }

  lemma MiddleOf(s: string, q: nat)
    requires SentenceAt(s, q)
    ensures Contains(s, MIDDLE)
  {
    var x := s[q..q + LENGTH];
    assert |x| == LENGTH && x[6..16] == MIDDLE;
    hide Sentence;
    var y, z := s[q + 6..q + 16], x[6..16];
    forall j | 0 <= j < 10 ensures y[j] == z[j] {
      assert y[j] == s[q + 6 + j] && z[j] == x[6 + j];
    }
    assert y == z;
    assert StartsAt(s, q + 6, MIDDLE);
  }

  lemma CanonicalizeIdempotent(s: string)
    ensures Canonicalize(Canonicalize(s)) == Canonicalize(s)
  {
    hide Canonicalize;
    CanonicalizeIsReplace(s);
    CanonicalizeIsReplace(Replace(s));
    ReplaceIdempotent(s);
  }

  // ---- system-reminder segments --------------------------------------------------------------

  /** Position of the first `t` in `s`, or -1. */
  function IndexOf(s: string, t: string): (k: int)
    ensures -1 <= k <= |s| && (k >= 0 ==> k + |t| <= |s|)
  {
    if StartsAt(s, 0, t) then 0
    else if s == "" then -1
    else
      var k := IndexOf(s[1..], t);
      if k < 0 then -1 else k + 1
  }

  lemma StartsInTail(s: string, i: nat, t: string)
    requires s != ""
    ensures StartsAt(s[1..], i, t) == StartsAt(s, i + 1, t)
  {
    if i + 1 + |t| <= |s| { assert s[1..][i..i + |t|] == s[i + 1..i + 1 + |t|]; }
  }

  /** There is a `t` at the found position, and none before it. */
  lemma {:induction false} IndexOfFirst(s: string, t: string)
    ensures IndexOf(s, t) >= 0 ==> StartsAt(s, IndexOf(s, t), t)
    ensures forall i: nat :: i < (if IndexOf(s, t) < 0 then |s| + 1 else IndexOf(s, t)) ==> !StartsAt(s, i, t)
  {
    if !StartsAt(s, 0, t) && s != "" {
      hide StartsAt;
      IndexOfFirst(s[1..], t);
      var bound := if IndexOf(s, t) < 0 then |s| + 1 else IndexOf(s, t);
      if IndexOf(s[1..], t) >= 0 { StartsInTail(s, IndexOf(s[1..], t), t); }
      forall i: nat | i < bound ensures !StartsAt(s, i, t) {
        if i > 0 { StartsInTail(s, i - 1, t); }
      }
    }
  }

  /** Length of the segment `s` starts with, or 0: from the opening tag to the nearest closing one. */
  function Segment(s: string): (n: nat)
    ensures n <= |s|
    ensures n > 0 ==> n >= |OPEN| + |CLOSE|
  {
    if !StartsAt(s, 0, OPEN) then 0
    else
      var k := IndexOf(s[|OPEN|..], CLOSE);
      if k < 0 then 0 else |OPEN| + k + |CLOSE|
  }

  function ReplaceReminders(s: string): (r: string)
    ensures |r| == |s|
  {
    if s == "" then ""
    else
      var n := Segment(s);
      if n > 0 then
        CanonicalizeIsReplace(s[..n]);
        Canonicalize(s[..n]) + ReplaceReminders(s[n..])
      else [s[0]] + ReplaceReminders(s[1..])
  }

  function CanonicalizeReminders(s: string): string {
    if !Contains(s, OPEN) then s else ReplaceReminders(s)
  }

  /** `r` differs from `s` only inside sentences that both have at the same places. */
  ghost predicate Touches(s: string, r: string) {
    |r| == |s| && forall i :: 0 <= i < |s| && r[i] != s[i] ==>
        exists p :: 0 <= p <= i < p + LENGTH && SentenceAt(s, p) && SentenceAt(r, p)
  }

  lemma TouchesConcat(a: string, b: string, c: string, d: string)
    requires Touches(a, b) && Touches(c, d)
    ensures Touches(a + c, b + d)
  {
    hide SentenceAt;
    var s, r := a + c, b + d;
    forall i | 0 <= i < |s| && r[i] != s[i]
      ensures exists p :: 0 <= p <= i < p + LENGTH && SentenceAt(s, p) && SentenceAt(r, p)
    {
      if i < |a| {
        var p :| 0 <= p <= i < p + LENGTH && SentenceAt(a, p) && SentenceAt(b, p);
        SentenceLeft(a, c, p);
        SentenceLeft(b, d, p);
      } else {
        assert r[i] == d[i - |a|] && s[i] == c[i - |a|];
        var p :| 0 <= p <= i - |a| < p + LENGTH && SentenceAt(c, p) && SentenceAt(d, p);
        SentenceRight(a, c, p);
        SentenceRight(b, d, p);
      }
    }
  }

  lemma SentenceLeft(a: string, c: string, p: nat)
    requires SentenceAt(a, p)
    ensures SentenceAt(a + c, p)
  {
    hide Sentence;
    assert (a + c)[p..p + LENGTH] == a[p..p + LENGTH];
  }

  lemma SentenceRight(a: string, c: string, p: nat)
    requires SentenceAt(c, p)
    ensures SentenceAt(a + c, |a| + p)
  {
    hide Sentence;
    assert (a + c)[|a| + p..|a| + p + LENGTH] == c[p..p + LENGTH];
  }

  lemma {:induction false} ReplaceTouches(s: string)
    ensures Touches(s, Replace(s))
    decreases |s|
  {
    hide Sentence, Fix;
    if s != "" {
      if SentenceAt(s, 0) {
        ReplaceSentence(s);
        ReplaceTouches(s[LENGTH..]);
        var x, y := s[..LENGTH], Fix(s[..LENGTH]);
        assert s[0..LENGTH] == x;
        FixKeeps(x);
        assert x[0..LENGTH] == x && y[0..LENGTH] == y;
        assert SentenceAt(x, 0) && SentenceAt(y, 0);
        assert Touches(x, y);
        TouchesConcat(x, y, s[LENGTH..], Replace(s[LENGTH..]));
        assert s == x + s[LENGTH..] && Replace(s) == y + Replace(s[LENGTH..]);
      } else {
        ReplaceLetter(s);
        ReplaceTouches(s[1..]);
        TouchesConcat([s[0]], [s[0]], s[1..], Replace(s[1..]));
        assert s == [s[0]] + s[1..];
      }
    }
  }

  lemma {:induction false} RemindersTouch(s: string)
    ensures Touches(s, ReplaceReminders(s))
    decreases |s|
  {
    hide Sentence, Fix, Touches, Segment, Canonicalize, Replace;
    if s == "" {
      TouchesItself(s);
    } else {
      var n := Segment(s);
      if n > 0 {
        CanonicalizeIsReplace(s[..n]);
        ReplaceTouches(s[..n]);
        RemindersTouch(s[n..]);
        TouchesConcat(s[..n], Replace(s[..n]), s[n..], ReplaceReminders(s[n..]));
        assert s == s[..n] + s[n..];
      } else {
        TouchesItself([s[0]]);
        RemindersTouch(s[1..]);
        TouchesConcat([s[0]], [s[0]], s[1..], ReplaceReminders(s[1..]));
        assert s == [s[0]] + s[1..];
      }
    }
  }

  lemma TouchesItself(s: string)
    ensures Touches(s, s)
  {
  }

  /** A tag shorter than a sentence, in angle brackets. */
  predicate Tag(t: string) {
    2 <= |t| <= LENGTH && t[0] == '<' && t[|t| - 1] == '>'
  }

  /** Neither tag is made or broken: every tag stands where it stood. */
  lemma TagsKept(s: string, r: string, i: nat, t: string)
    requires Touches(s, r) && Tag(t)
    ensures StartsAt(s, i, t) == StartsAt(r, i, t)
  {
    hide SentenceAt;
    if i + |t| <= |s| {
      if StartsAt(s, i, t) { TagUntouched(s, r, i, t); }
      if StartsAt(r, i, t) {
        assert Touches(r, s) by {
          forall j | 0 <= j < |r| && s[j] != r[j]
            ensures exists p :: 0 <= p <= j < p + LENGTH && SentenceAt(r, p) && SentenceAt(s, p) {
            var p :| 0 <= p <= j < p + LENGTH && SentenceAt(s, p) && SentenceAt(r, p);
          }
        }
        TagUntouched(r, s, i, t);
      }
    }
  }

  lemma TagUntouched(s: string, r: string, i: nat, t: string)
    requires Touches(s, r) && Tag(t) && StartsAt(s, i, t)
    ensures s[i..i + |t|] == r[i..i + |t|]
  {
    hide SentenceAt;
    assert s[i] == s[i..i + |t|][0] && s[i + |t| - 1] == s[i..i + |t|][|t| - 1];
    forall j | i <= j < i + |t| ensures s[j] == r[j] {
      if r[j] != s[j] {
        var p :| 0 <= p <= j < p + LENGTH && SentenceAt(s, p) && SentenceAt(r, p);
        if p <= i { SentenceAtChars(s, p, i); } else { SentenceAtChars(s, p, i + |t| - 1); }
      }
    }
  }

  // ---- segments ------------------------------------------------------------------------------

  lemma SegmentOf(s: string, n: nat)
    requires |OPEN| + |CLOSE| <= n <= |s| && StartsAt(s, 0, OPEN) && StartsAt(s, n - |CLOSE|, CLOSE)
    requires forall i: nat :: |OPEN| <= i < n - |CLOSE| ==> !StartsAt(s, i, CLOSE)
    ensures Segment(s) == n
  {
    hide StartsAt, IndexOf;
    var body := s[|OPEN|..];
    IndexOfFirst(body, CLOSE);
    TagShift(s, n - |CLOSE|);
    var k := IndexOf(body, CLOSE);
    if 0 <= k { TagShift(s, |OPEN| + k); }
  }

  lemma TagShift(s: string, i: nat)
    requires |OPEN| <= i && |OPEN| <= |s|
    ensures StartsAt(s[|OPEN|..], i - |OPEN|, CLOSE) == StartsAt(s, i, CLOSE)
  {
    if i + |CLOSE| <= |s| { assert s[|OPEN|..][i - |OPEN|..i - |OPEN| + |CLOSE|] == s[i..i + |CLOSE|]; }
  }

  lemma SegmentTags(s: string)
    ensures var n := Segment(s);
      && (n > 0 ==> StartsAt(s, 0, OPEN) && StartsAt(s, n - |CLOSE|, CLOSE) &&
                    forall i: nat :: |OPEN| <= i < n - |CLOSE| ==> !StartsAt(s, i, CLOSE))
      && (n == 0 && StartsAt(s, 0, OPEN) ==> forall i: nat :: |OPEN| <= i ==> !StartsAt(s, i, CLOSE))
  {
    if StartsAt(s, 0, OPEN) {
      hide IndexOf;
      var body := s[|OPEN|..];
      IndexOfFirst(body, CLOSE);
      Beyond(body, CLOSE);
      hide StartsAt;
      forall i: nat | |OPEN| <= i ensures StartsAt(body, i - |OPEN|, CLOSE) == StartsAt(s, i, CLOSE) { TagShift(s, i); }
    }
  }

  lemma Beyond(s: string, t: string)
    requires t != ""
    ensures forall i: nat :: i > |s| ==> !StartsAt(s, i, t)
  {
  }

  /** The same text starts a segment before and after, and it ends at the same place. */
  lemma SegmentKept(s: string, r: string)
    requires Touches(s, r)
    ensures Segment(r) == Segment(s)
  {
    hide Touches, Segment;
    SegmentTags(s);
    SegmentTags(r);
    TagsKept(s, r, 0, OPEN);
    forall i: nat ensures StartsAt(s, i, CLOSE) == StartsAt(r, i, CLOSE) { TagsKept(s, r, i, CLOSE); }
    var n, m := Segment(s), Segment(r);
    if n > 0 {
      SameLength(s, r);
      SegmentOf(r, n);
    }
  }

  lemma SameLength(s: string, r: string)
    requires Touches(s, r)
    ensures |s| == |r|
  {
  }

  /** The segments of a text, in order, as start and end positions. */
  function Segments(s: string, offset: nat): seq<(nat, nat)>
    decreases |s|
  {
    if s == "" then []
    else
      var n := Segment(s);
      if n > 0 then [(offset, offset + n)] + Segments(s[n..], offset + n) else Segments(s[1..], offset + 1)
  }

  predicate Within(segments: seq<(nat, nat)>, i: nat) {
    exists k :: 0 <= k < |segments| && segments[k].0 <= i < segments[k].1
  }

  lemma RemindersStep(s: string)
    requires s != ""
    ensures var n := Segment(s);
      ReplaceReminders(s) == if n > 0 then Replace(s[..n]) + ReplaceReminders(s[n..])
          else [s[0]] + ReplaceReminders(s[1..])
  {
    hide Segment, Canonicalize, Replace;
    if Segment(s) > 0 { CanonicalizeIsReplace(s[..Segment(s)]); }
  }

  lemma {:induction false} SegmentsKept(s: string, offset: nat)
    ensures Segments(ReplaceReminders(s), offset) == Segments(s, offset)
    decreases |s|
  {
    hide Segment, Replace, Touches, ReplaceReminders;
    if s == "" {
      NoReminders();
    } else {
      var n, r := Segment(s), ReplaceReminders(s);
      RemindersTouch(s);
      SegmentKept(s, r);
      RemindersStep(s);
      var step := if n > 0 then n else 1;
      SegmentsKept(s[step..], offset + step);
      assert r[step..] == ReplaceReminders(s[step..]);
    }
  }

  lemma {:induction false} OutsideKept(s: string, offset: nat, i: nat)
    requires i < |s| && !Within(Segments(s, offset), offset + i)
    ensures ReplaceReminders(s)[i] == s[i]
    decreases |s|
  {
    hide Segment, Replace, ReplaceReminders;
    var n, r := Segment(s), ReplaceReminders(s);
    RemindersStep(s);
    var step := if n > 0 then n else 1;
    if n > 0 { assert Segments(s, offset)[0] == (offset, offset + n); }
    if i >= step {
      hide Segments;
      WithinRest(s, offset, step, offset + i);
      OutsideKept(s[step..], offset + step, i - step);
      assert r[i] == ReplaceReminders(s[step..])[i - step] && s[i] == s[step..][i - step];
    }
  }

  /** The reminder form keeps the segments and every character outside them. */
  lemma RemindersOnlyInside(s: string)
    ensures Segments(ReplaceReminders(s), 0) == Segments(s, 0)
    ensures forall i: nat :: i < |s| && !Within(Segments(s, 0), i) ==> ReplaceReminders(s)[i] == s[i]
  {
    hide Segments, ReplaceReminders;
    SegmentsKept(s, 0);
    forall i: nat | i < |s| && !Within(Segments(s, 0), i) ensures ReplaceReminders(s)[i] == s[i] {
      OutsideKept(s, 0, i);
    }
  }

  lemma WithinRest(s: string, offset: nat, step: nat, i: nat)
    requires s != "" && step == (if Segment(s) > 0 then Segment(s) else 1)
    ensures Within(Segments(s[step..], offset + step), i) ==> Within(Segments(s, offset), i)
  {
    hide Segment;
    var all, rest := Segments(s, offset), Segments(s[step..], offset + step);
    if Within(rest, i) {
      var k :| 0 <= k < |rest| && rest[k].0 <= i < rest[k].1;
      assert all[|all| - |rest| + k] == rest[k];
    }
  }

  lemma SegmentsStep(s: string, offset: nat)
    requires s != ""
    ensures var n := Segment(s);
      Segments(s, offset) == if n > 0 then [(offset, offset + n)] + Segments(s[n..], offset + n)
          else Segments(s[1..], offset + 1)
  {
    hide Segment;
  }

  /** The segment lies in the text, which starts at `offset`, and was canonicalised as a text of its own. */
  predicate CanonicalInside(s: string, offset: nat, segment: (nat, nat)) {
    && offset <= segment.0 < segment.1 <= offset + |s|
    && ReplaceReminders(s)[segment.0 - offset..segment.1 - offset] ==
        Canonicalize(s[segment.0 - offset..segment.1 - offset])
  }

  lemma InsideRest(s: string, offset: nat, step: nat, segment: (nat, nat))
    requires step <= |s| && CanonicalInside(s[step..], offset + step, segment)
    requires ReplaceReminders(s)[step..] == ReplaceReminders(s[step..])
    ensures CanonicalInside(s, offset, segment)
  {
    hide ReplaceReminders, Canonicalize;
    SliceOfRest(ReplaceReminders(s), step, segment.0 - offset, segment.1 - offset);
    SliceOfRest(s, step, segment.0 - offset, segment.1 - offset);
  }

  /** Inside, every segment is canonicalised. */
  lemma {:induction false} RemindersInside(s: string, offset: nat, k: nat)
    requires k < |Segments(s, offset)|
    ensures CanonicalInside(s, offset, Segments(s, offset)[k])
    decreases |s|
  {
    hide Segment, Segments, Replace, ReplaceReminders, Canonicalize, CanonicalInside;
    if s == "" { NoSegments(offset); }
    var n, r := Segment(s), ReplaceReminders(s);
    RemindersStep(s);
    SegmentsStep(s, offset);
    if n > 0 && k == 0 {
      CanonicalizeIsReplace(s[..n]);
      assert r[..n] == Replace(s[..n]);
      WholeSegment(s, offset, n);
    } else {
      var step := if n > 0 then n else 1;
      var j := if n > 0 then k - 1 else k;
      RemindersInside(s[step..], offset + step, j);
      assert r[step..] == ReplaceReminders(s[step..]);
      InsideRest(s, offset, step, Segments(s[step..], offset + step)[j]);
    }
  }

  lemma NoSegments(offset: nat)
    ensures Segments("", offset) == []
  {
  }

  lemma WholeSegment(s: string, offset: nat, n: nat)
    requires 0 < n <= |s| && ReplaceReminders(s)[..n] == Canonicalize(s[..n])
    ensures CanonicalInside(s, offset, (offset, offset + n))
  {
    hide ReplaceReminders, Canonicalize;
    assert s[0..n] == s[..n] && ReplaceReminders(s)[0..n] == ReplaceReminders(s)[..n];
  }

  lemma {:induction false} RemindersIdempotent(s: string)
    ensures ReplaceReminders(ReplaceReminders(s)) == ReplaceReminders(s)
    decreases |s|
  {
    hide Segment, Replace, Touches, ReplaceReminders;
    if s != "" {
      var n, r := Segment(s), ReplaceReminders(s);
      RemindersTouch(s);
      SegmentKept(s, r);
      RemindersStep(s);
      RemindersStep(r);
      var step := if n > 0 then n else 1;
      RemindersIdempotent(s[step..]);
      assert r[step..] == ReplaceReminders(s[step..]);
      if n > 0 {
        assert r[..n] == Replace(s[..n]);
        ReplaceIdempotent(s[..n]);
      }
    } else {
      NoReminders();
    }
  }

  lemma NoReminders()
    ensures ReplaceReminders("") == ""
  {
  }

  /** The reminder form is idempotent on every text, and its quick look only saves work. */
  lemma CanonicalizeRemindersIdempotent(s: string)
    ensures CanonicalizeReminders(s) == ReplaceReminders(s)
    ensures CanonicalizeReminders(CanonicalizeReminders(s)) == CanonicalizeReminders(s)
  {
    hide Segment, Replace, ReplaceReminders;
    WithoutTags(s);
    WithoutTags(ReplaceReminders(s));
    RemindersIdempotent(s);
  }

  lemma {:induction false} WithoutTags(s: string)
    ensures !Contains(s, OPEN) ==> ReplaceReminders(s) == s
    decreases |s|
  {
    hide Replace, ReplaceReminders;
    if s == "" {
      NoReminders();
    } else if !Contains(s, OPEN) {
      assert !StartsAt(s, 0, OPEN);
      RemindersStep(s);
      assert !Contains(s[1..], OPEN) by {
        forall i | 0 <= i <= |s| - 1 ensures !StartsAt(s[1..], i, OPEN) {
          if i + |OPEN| <= |s| - 1 { assert s[1..][i..i + |OPEN|] == s[i + 1..i + 1 + |OPEN|]; }
          assert !StartsAt(s, i + 1, OPEN);
        }
      }
      WithoutTags(s[1..]);
    }
  }
}
