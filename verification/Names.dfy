/** Text helpers every channel component shares: case folding, trimming, the string order,
    and the name a model routes under once its thinking suffix is removed. */
module Names {

  predicate IsSpace(c: char) {
    || c in {'\t', '\n', '\U{0B}', '\U{0C}', '\r', ' ', '\U{85}', '\U{A0}', '\U{1680}'}
    || '\U{2000}' <= c <= '\U{200A}'
    || c in {'\U{2028}', '\U{2029}', '\U{202F}', '\U{205F}', '\U{3000}'}
  }

  function LowerChar(c: char): char {
    if 'A' <= c <= 'Z' then (c as int + 32) as char else c
  }

  function Lower(s: string): (r: string)
    ensures |r| == |s|
    ensures forall i :: 0 <= i < |s| ==> r[i] == LowerChar(s[i])
  {
    seq(|s|, i requires 0 <= i < |s| => LowerChar(s[i]))
  }

  predicate EqualFold(a: string, b: string) {
    Lower(a) == Lower(b)
  }

  function TrimLeft(s: string): (r: string)
    ensures r == "" || !IsSpace(r[0])
    ensures |r| <= |s| && r == s[|s| - |r|..]
    ensures s != "" && !IsSpace(s[0]) ==> r == s
  {
    if s != "" && IsSpace(s[0]) then TrimLeft(s[1..]) else s
  }

  function TrimRight(s: string): (r: string)
    ensures r == "" || !IsSpace(r[|r| - 1])
    ensures |r| <= |s| && r == s[..|r|]
    ensures s != "" && !IsSpace(s[|s| - 1]) ==> r == s
  {
    if s != "" && IsSpace(s[|s| - 1]) then TrimRight(s[..|s| - 1]) else s
  }

  function TrimSpace(s: string): (r: string)
    ensures Trimmed(r)
    ensures Trimmed(s) ==> r == s
    ensures |r| <= |s|
  {
    var l := TrimLeft(s);
    var r := TrimRight(l);
    assert r != "" ==> r[0] == l[0];
    r
  }

  /** No blank at either end. */
  predicate Trimmed(s: string) {
    s == "" || (!IsSpace(s[0]) && !IsSpace(s[|s| - 1]))
  }

  /** Index of the last `c` in `s`, or -1. */
  function LastIndex(s: string, c: char): (k: int)
    ensures -1 <= k < |s|
    ensures k >= 0 ==> s[k] == c
    ensures forall i :: k < i < |s| ==> s[i] != c
  {
    if s == "" then -1
    else if s[|s| - 1] == c then |s| - 1
    else LastIndex(s[..|s| - 1], c)
  }

  predicate IsDigits(s: string) {
    forall i :: 0 <= i < |s| ==> '0' <= s[i] <= '9'
  }

  function DecimalValue(s: string): nat
    requires IsDigits(s)
  {
    if s == "" then 0 else 10 * DecimalValue(s[..|s| - 1]) + (s[|s| - 1] as int - '0' as int)
  }

  const MAX_INT64: int := 0x7FFF_FFFF_FFFF_FFFF

  /** A signed 64-bit decimal that is not negative ("-0" is accepted, as strconv.Atoi does). */
  predicate IsBudget(s: string) {
    var digits := if s != "" && s[0] in {'+', '-'} then s[1..] else s;
    && digits != ""
    && IsDigits(digits)
    && DecimalValue(digits) <= MAX_INT64
    && (s[0] == '-' ==> DecimalValue(digits) == 0)
  }

  const LEVELS: set<string> :=
    {"none", "auto", "-1", "minimal", "low", "medium", "high", "xhigh", "max"}

  predicate IsThinkingSuffix(raw: string) {
    var value := TrimSpace(raw);
    value != "" && (Lower(value) in LEVELS || IsBudget(value))
  }

  /** The model name without a recognised `(level)` suffix. A bracketed name whose content is not
      a level, a special value or a budget is returned untouched. */
  function Routing(name: string): (r: string)
    ensures |r| <= |name|
    ensures Trimmed(name) ==> Trimmed(r)
    ensures name != "" ==> r != ""
  {
    var open := LastIndex(name, '(');
    if open < 0 || name[|name| - 1] != ')' then name
    else
      var base := TrimSpace(name[..open]);
      if base != "" && IsThinkingSuffix(name[open + 1..|name| - 1]) then base else name
  }

  /** Go's `<` on strings. */
  predicate StringLess(a: string, b: string) {
    if b == "" then false
    else if a == "" then true
    else if a[0] != b[0] then a[0] < b[0]
    else StringLess(a[1..], b[1..])
  }

  lemma {:induction false} StringLessTrichotomy(a: string, b: string)
    ensures StringLess(a, b) || StringLess(b, a) || a == b
    ensures !(StringLess(a, b) && StringLess(b, a))
    ensures a == b ==> !StringLess(a, b)
  {
    if a != "" && b != "" && a[0] == b[0] {
      StringLessTrichotomy(a[1..], b[1..]);
      assert a == [a[0]] + a[1..] && b == [b[0]] + b[1..];
    }
  }

  lemma {:induction false} StringLessTransitive(a: string, b: string, c: string)
    requires StringLess(a, b) && StringLess(b, c)
    ensures StringLess(a, c)
  {
    if a != "" && a[0] == b[0] == c[0] {
      StringLessTransitive(a[1..], b[1..], c[1..]);
    }
  }

  lemma LowerTrimmed(s: string)
    ensures Trimmed(Lower(s)) == Trimmed(s)
  {
    if s != "" {
      assert IsSpace(LowerChar(s[0])) == IsSpace(s[0]);
      assert IsSpace(LowerChar(s[|s| - 1])) == IsSpace(s[|s| - 1]);
    }
  }

  lemma LowerIdempotent(s: string)
    ensures Lower(Lower(s)) == Lower(s)
  {
    assert forall i :: 0 <= i < |s| ==> Lower(Lower(s))[i] == Lower(s)[i];
  }

  // ---- folding commutes with routing ---------------------------------------------------------

  lemma LowerSlice(s: string, i: nat, j: nat)
    requires i <= j <= |s|
    ensures Lower(s[i..j]) == Lower(s)[i..j]
  {
  }

  lemma LowerSpace(c: char)
    ensures IsSpace(LowerChar(c)) == IsSpace(c)
  {
  }

  lemma {:induction false} LowerTrimLeft(s: string)
    ensures TrimLeft(Lower(s)) == Lower(TrimLeft(s))
  {
    hide IsSpace;
    if s != "" { LowerSpace(s[0]); }
    if s != "" && IsSpace(s[0]) {
      LowerSlice(s, 1, |s|);
      assert s[1..|s|] == s[1..] && Lower(s)[1..|s|] == Lower(s)[1..];
      LowerTrimLeft(s[1..]);
    }
  }

  lemma {:induction false} LowerTrimRight(s: string)
    ensures TrimRight(Lower(s)) == Lower(TrimRight(s))
  {
    hide IsSpace;
    if s != "" { LowerSpace(s[|s| - 1]); }
    if s != "" && IsSpace(s[|s| - 1]) {
      LowerSlice(s, 0, |s| - 1);
      assert s[0..|s| - 1] == s[..|s| - 1] && Lower(s)[0..|s| - 1] == Lower(s)[..|s| - 1];
      LowerTrimRight(s[..|s| - 1]);
    }
  }

  lemma LowerTrimSpace(s: string)
    ensures TrimSpace(Lower(s)) == Lower(TrimSpace(s))
  {
    LowerTrimLeft(s);
    LowerTrimRight(TrimLeft(s));
  }

  lemma LowerDigits(s: string)
    ensures IsDigits(Lower(s)) == IsDigits(s)
    ensures IsDigits(s) ==> Lower(s) == s
  {
    forall i | 0 <= i < |s| ensures ('0' <= LowerChar(s[i]) <= '9') == ('0' <= s[i] <= '9') {}
    assert IsDigits(Lower(s)) ==> forall i :: 0 <= i < |s| ==> '0' <= Lower(s)[i] <= '9';
  }

  lemma LowerBudget(s: string)
    ensures IsBudget(Lower(s)) == IsBudget(s)
  {
    LowerDigits(s);
    if s != "" {
      LowerDigits(s[1..]);
      LowerSlice(s, 1, |s|);
      assert s[1..|s|] == s[1..] && Lower(s)[1..|s|] == Lower(s)[1..];
      assert Lower(s)[0] == LowerChar(s[0]);
    }
  }

  lemma LowerThinkingSuffix(raw: string)
    ensures IsThinkingSuffix(Lower(raw)) == IsThinkingSuffix(raw)
  {
    hide IsBudget;
    LowerTrimSpace(raw);
    LowerIdempotent(TrimSpace(raw));
    LowerBudget(TrimSpace(raw));
  }

  lemma LowerLastIndex(s: string, c: char)
    requires c in {'(', '/'}
    ensures LastIndex(Lower(s), c) == LastIndex(s, c)
  {
    var k, l := LastIndex(s, c), LastIndex(Lower(s), c);
    if l >= 0 { assert LowerChar(s[l]) == c; }
    if k >= 0 { assert Lower(s)[k] == c; }
  }

  lemma LowerParts(name: string, open: nat)
    requires open < |name|
    ensures TrimSpace(Lower(name)[..open]) == Lower(TrimSpace(name[..open]))
    ensures open + 1 < |name| ==>
        IsThinkingSuffix(Lower(name)[open + 1..|name| - 1]) == IsThinkingSuffix(name[open + 1..|name| - 1])
  {
    hide IsThinkingSuffix, TrimSpace, Lower;
    LowerSlice(name, 0, open);
    assert name[0..open] == name[..open] && Lower(name)[0..open] == Lower(name)[..open];
    LowerTrimSpace(name[..open]);
    if open + 1 < |name| {
      LowerSlice(name, open + 1, |name| - 1);
      LowerThinkingSuffix(name[open + 1..|name| - 1]);
    }
  }

  lemma LowerLast(name: string, c: char)
    requires name != "" && c == ')'
    ensures Lower(name)[|name| - 1] == c <==> name[|name| - 1] == c
  {
  }

  /** Names that fold together route together. */
  lemma LowerRouting(name: string)
    ensures Routing(Lower(name)) == Lower(Routing(name))
  {
    hide IsThinkingSuffix, TrimSpace, LastIndex, Lower;
    var open := LastIndex(name, '(');
    LowerLastIndex(name, '(');
    if open >= 0 {
      LowerParts(name, open);
      LowerLast(name, ')');
      LowerEmpty(TrimSpace(name[..open]));
    }
  }

  lemma LowerEmpty(s: string)
    ensures Lower(s) == "" <==> s == ""
  {
  }

  lemma RoutingFolds(a: string, b: string)
    requires EqualFold(a, b)
    ensures EqualFold(Routing(a), Routing(b))
  {
    LowerRouting(a);
    LowerRouting(b);
  }
}
