/** The result type and the sequence functions the other modules share. */
module Prelude {
  type byte = bv8

  datatype Option<+T> = None | Some(value: T) {
    function GetOr(default: T): T {
      match this
      case Some(v) => v
      case None => default
    }
  }

  function Filter<T>(xs: seq<T>, p: T -> bool): seq<T> {
    if xs == [] then []
    else if p(xs[0]) then [xs[0]] + Filter(xs[1..], p)
    else Filter(xs[1..], p)
  }

  lemma {:induction false} FilterAppend<T>(xs: seq<T>, ys: seq<T>, p: T -> bool)
    ensures Filter(xs + ys, p) == Filter(xs, p) + Filter(ys, p)
  {
    if xs == [] {
      assert xs + ys == ys;
    } else {
      FilterAppend(xs[1..], ys, p);
      assert (xs + ys)[1..] == xs[1..] + ys;
    }
  }

  lemma {:induction false} FilterNone<T>(xs: seq<T>, p: T -> bool)
    requires forall k :: 0 <= k < |xs| ==> !p(xs[k])
    ensures Filter(xs, p) == []
  {
    if xs != [] {
      FilterNone(xs[1..], p);
    }
  }

  lemma {:induction false} FilterAll<T>(xs: seq<T>, p: T -> bool)
    requires forall k :: 0 <= k < |xs| ==> p(xs[k])
    ensures Filter(xs, p) == xs
  {
    if xs != [] {
      FilterAll(xs[1..], p);
    }
  }

  lemma {:induction false} FilterElements<T>(xs: seq<T>, p: T -> bool)
    ensures forall x :: x in Filter(xs, p) <==> x in xs && p(x)
    ensures forall k :: 0 <= k < |Filter(xs, p)| ==> p(Filter(xs, p)[k])
  {
    if xs != [] {
      FilterElements(xs[1..], p);
    }
  }

  ghost predicate RepeatFree<T>(xs: seq<T>) {
    forall i, j :: 0 <= i < j < |xs| ==> xs[i] != xs[j]
  }

  lemma {:induction false} FilterRepeatFree<T>(xs: seq<T>, p: T -> bool)
    requires RepeatFree(xs)
    ensures RepeatFree(Filter(xs, p))
  {
    if xs != [] {
      FilterRepeatFree(xs[1..], p);
      FilterElements(xs[1..], p);
    }
  }

  /** The sum of f over a sequence. */
  function SumBy<T>(xs: seq<T>, f: T -> nat): nat {
    if xs == [] then 0 else SumBy(xs[..|xs| - 1], f) + f(xs[|xs| - 1])
  }

  lemma {:induction false} SumByAppend<T>(a: seq<T>, b: seq<T>, f: T -> nat)
    ensures SumBy(a + b, f) == SumBy(a, f) + SumBy(b, f)
  {
    if b == [] {
      assert a + b == a;
    } else {
      SumByAppend(a, b[..|b| - 1], f);
      assert (a + b)[..|a + b| - 1] == a + b[..|b| - 1];
    }
  }

  lemma {:induction false} SumByPermutation<T>(a: seq<T>, b: seq<T>, f: T -> nat)
    requires multiset(a) == multiset(b)
    ensures SumBy(a, f) == SumBy(b, f)
    decreases |a|
  {
    hide SumBy;
    if a == [] {
      assert |b| == |multiset(b)| == 0;
    } else {
      var x, init := a[|a| - 1], a[..|a| - 1];
      assert a == init + [x];
      assert x in multiset(b);
      var i :| 0 <= i < |b| && b[i] == x;
      assert b == b[..i] + ([x] + b[i + 1..]);
      SameRest(init, b[..i], b[i + 1..], x);
      SumByPermutation(init, b[..i] + b[i + 1..], f);
      SumByAppend(b[..i], b[i + 1..], f);
      SumByAppend([x], b[i + 1..], f);
      SumByAppend(b[..i], [x] + b[i + 1..], f);
      SumByAppend(init, [x], f);
    }
  }

  lemma SameRest<T>(init: seq<T>, left: seq<T>, right: seq<T>, x: T)
    requires multiset(init + [x]) == multiset(left + ([x] + right))
    ensures multiset(init) == multiset(left + right)
  {
    assert multiset(init) == multiset(init + [x]) - multiset{x};
    assert multiset(left + right) == multiset(left + ([x] + right)) - multiset{x};
  }
}
