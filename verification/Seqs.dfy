/** Sequence combinators that recurse from the back, so that a loop over `xs[..i]` follows them. */
module Seqs {

  datatype Option<T> = None | Some(value: T)

  function FilterMap<A, B>(f: A -> Option<B>, xs: seq<A>): (ys: seq<B>)
    ensures |ys| <= |xs|
  {
    if xs == [] then []
    else
      var last := f(xs[|xs| - 1]);
      FilterMap(f, xs[..|xs| - 1]) + if last.Some? then [last.value] else []
  }

  lemma FilterMapStep<A, B>(f: A -> Option<B>, xs: seq<A>, x: A)
    ensures f(x).None? ==> FilterMap(f, xs + [x]) == FilterMap(f, xs)
    ensures f(x).Some? ==> FilterMap(f, xs + [x]) == FilterMap(f, xs) + [f(x).value]
  {
    assert (xs + [x])[..|xs|] == xs;
  }

  lemma {:induction false} FilterMapMembers<A, B>(f: A -> Option<B>, xs: seq<A>)
    ensures forall y :: y in FilterMap(f, xs) <==> exists x :: x in xs && f(x) == Some(y)
  {
    if xs != [] {
      var front, last := xs[..|xs| - 1], xs[|xs| - 1];
      FilterMapMembers(f, front);
      assert xs == front + [last];
      forall y ensures y in FilterMap(f, xs) <==> exists x :: x in xs && f(x) == Some(y) {
        if f(last) == Some(y) { assert last in xs; }
      }
    }
  }

  /** Two sequences of rejected-free elements map to themselves. */
  lemma {:induction false} FilterMapIdentity<A>(f: A -> Option<A>, xs: seq<A>)
    requires forall x :: x in xs ==> f(x) == Some(x)
    ensures FilterMap(f, xs) == xs
  {
    if xs != [] {
      assert xs == xs[..|xs| - 1] + [xs[|xs| - 1]];
      FilterMapIdentity(f, xs[..|xs| - 1]);
    }
  }

  function Filter<A>(p: A -> bool, xs: seq<A>): (ys: seq<A>)
    ensures |ys| <= |xs|
  {
    if xs == [] then []
    else Filter(p, xs[..|xs| - 1]) + if p(xs[|xs| - 1]) then [xs[|xs| - 1]] else []
  }

  lemma FilterStep<A>(p: A -> bool, xs: seq<A>, x: A)
    ensures p(x) ==> Filter(p, xs + [x]) == Filter(p, xs) + [x]
    ensures !p(x) ==> Filter(p, xs + [x]) == Filter(p, xs)
  {
    assert (xs + [x])[..|xs|] == xs;
  }

  lemma {:induction false} FilterAll<A>(p: A -> bool, xs: seq<A>)
    requires forall x :: x in xs ==> p(x)
    ensures Filter(p, xs) == xs
  {
    if xs != [] {
      assert xs == xs[..|xs| - 1] + [xs[|xs| - 1]];
      FilterAll(p, xs[..|xs| - 1]);
    }
  }

  lemma {:induction false} FilterMembers<A>(p: A -> bool, xs: seq<A>)
    ensures forall x :: x in Filter(p, xs) <==> x in xs && p(x)
  {
    if xs != [] {
      assert xs == xs[..|xs| - 1] + [xs[|xs| - 1]];
      FilterMembers(p, xs[..|xs| - 1]);
    }
  }

  lemma {:induction false} FilterAppend<A>(p: A -> bool, xs: seq<A>, ys: seq<A>)
    ensures Filter(p, xs + ys) == Filter(p, xs) + Filter(p, ys)
  {
    if ys == [] {
      assert xs + ys == xs;
    } else {
      var front := ys[..|ys| - 1];
      FilterAppend(p, xs, front);
      assert (xs + ys)[..|xs + ys| - 1] == xs + front;
    }
  }

  function Count<A>(p: A -> bool, xs: seq<A>): (n: nat)
    ensures n <= |xs|
    ensures n == |Filter(p, xs)|
  {
    if xs == [] then 0
    else Count(p, xs[..|xs| - 1]) + if p(xs[|xs| - 1]) then 1 else 0
  }
}
