/** Sums of real-valued terms over a set of keys and over a sequence.
    The source accumulates over dictionary entries and `Set`s, whose
    iteration order does not change an exact sum; `SumOver` therefore
    sums in an unspecified order and `SumOverRemove` shows that any
    element may be taken first. */
module Sums {

  ghost function Pick<T>(s: set<T>): (x: T)
    requires s != {}
    ensures x in s
  {
    var x :| x in s; x
  }

  ghost function SumOver<T>(s: set<T>, f: T -> real): real
    decreases |s|
  {
    if s == {} then 0.0 else f(Pick(s)) + SumOver(s - {Pick(s)}, f)
  }

  lemma {:induction false} SumOverRemove<T>(s: set<T>, f: T -> real, a: T)
    requires a in s
    ensures SumOver(s, f) == f(a) + SumOver(s - {a}, f)
    decreases |s|
  {
    var x := Pick(s);
    if x != a {
      SumOverRemove(s - {x}, f, a);
      SumOverRemove(s - {a}, f, x);
      assert s - {x} - {a} == s - {a} - {x};
    }
  }

  lemma SumOverAdd<T>(s: set<T>, f: T -> real, a: T)
    requires a !in s
    ensures SumOver(s + {a}, f) == SumOver(s, f) + f(a)
  {
    SumOverRemove(s + {a}, f, a);
    assert (s + {a}) - {a} == s;
  }

  lemma {:induction false} SumOverNonNegative<T>(s: set<T>, f: T -> real)
    requires forall x :: x in s ==> f(x) >= 0.0
    ensures SumOver(s, f) >= 0.0
    decreases |s|
  {
    if s != {} {
      SumOverNonNegative(s - {Pick(s)}, f);
    }
  }

  /** Keys where `f` is zero do not change the sum: summing over `s`
      equals summing over the part of `s` inside `keep`. */
  lemma {:induction false} SumOverDropZeros<T>(s: set<T>, f: T -> real, keep: set<T>)
    requires forall x :: x in s && x !in keep ==> f(x) == 0.0
    ensures SumOver(s, f) == SumOver(s * keep, f)
    decreases |s|
  {
    if s != {} {
      var x := Pick(s);
      SumOverDropZeros(s - {x}, f, keep);
      assert (s - {x}) * keep == s * keep - {x};
      if x in keep {
        SumOverRemove(s * keep, f, x);
      } else {
        assert s * keep - {x} == s * keep;
      }
    }
  }

  /** A common factor can be taken out of a sum. */
  lemma {:induction false} SumOverScale<T>(s: set<T>, f: T -> real, g: T -> real, c: real)
    requires forall x :: x in s ==> f(x) == c * g(x)
    ensures SumOver(s, f) == c * SumOver(s, g)
    decreases |s|
  {
    if s != {} {
      var x := Pick(s);
      SumOverScale(s - {x}, f, g, c);
      ScaleOneMore(s, f, g, c, x);
    }
  }

  lemma ScaleOneMore<T>(s: set<T>, f: T -> real, g: T -> real, c: real, x: T)
    requires s != {} && x == Pick(s)
    requires f(x) == c * g(x) && SumOver(s - {x}, f) == c * SumOver(s - {x}, g)
    ensures SumOver(s, f) == c * SumOver(s, g)
  {
    AddScaled(f(x), g(x), SumOver(s - {x}, f), SumOver(s - {x}, g), c, SumOver(s, f), SumOver(s, g));
  }

  /** The sum of `f` over a sequence, accumulated from the front. */
  function SeqSum<T>(xs: seq<T>, f: T -> real): real
  {
    if |xs| == 0 then 0.0 else SeqSum(xs[..|xs| - 1], f) + f(xs[|xs| - 1])
  }

  lemma SeqSumStep<T>(xs: seq<T>, f: T -> real, j: nat)
    requires j < |xs|
    ensures SeqSum(xs[..j + 1], f) == SeqSum(xs[..j], f) + f(xs[j])
  {
    assert xs[..j + 1][..j] == xs[..j];
  }

  lemma {:induction false} SeqSumNonNegative<T>(xs: seq<T>, f: T -> real)
    requires forall i :: 0 <= i < |xs| ==> f(xs[i]) >= 0.0
    ensures SeqSum(xs, f) >= 0.0
    decreases |xs|
  {
    if |xs| > 0 {
      SeqSumNonNegative(xs[..|xs| - 1], f);
    }
  }

  lemma AddScaled(x: real, y: real, a: real, b: real, c: real, sx: real, sy: real)
    requires x == c * y && a == c * b
    requires sx == x + a && sy == y + b
    ensures sx == c * sy
  {
  }

}
