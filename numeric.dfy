/** Sums, means and extremes of sequences of reals, as Python's `sum`,
    `len`, `max` and `min` and JavaScript's `reduce`, `Math.max` and
    `Math.min` compute them on finite numbers. */
module Numeric {
  /** The sum of the values, added from the left. */
  function Sum(xs: seq<real>): real
    decreases |xs|
  {
    if xs == [] then 0.0 else Sum(xs[..|xs| - 1]) + xs[|xs| - 1]
  }

  /** The mean: the sum divided by the count. */
  function Mean(xs: seq<real>): real
    requires xs != []
  {
    Sum(xs) / |xs| as real
  }

  /** Bounds on a sum from bounds on its terms. */
  lemma {:induction false} SumBounds(xs: seq<real>, lo: real, hi: real)
    requires forall i :: 0 <= i < |xs| ==> lo <= xs[i] <= hi
    ensures |xs| as real * lo <= Sum(xs) <= |xs| as real * hi
    decreases |xs|
  {
    if xs != [] {
      var n := |xs| - 1;
      SumBounds(xs[..n], lo, hi);
      assert (n + 1) as real * lo == n as real * lo + lo;
      assert (n + 1) as real * hi == n as real * hi + hi;
    }
  }

  /** a / n between lo and hi when a is between n * lo and n * hi. */
  lemma DivBetween(a: real, n: real, lo: real, hi: real)
    requires n > 0.0 && n * lo <= a <= n * hi
    ensures lo <= a / n <= hi
  {
    var q := a / n;
    assert q * n == a;
  }

  /** The mean lies between the smallest and the largest value. */
  lemma MeanBetween(xs: seq<real>, lo: real, hi: real)
    requires xs != []
    requires forall i :: 0 <= i < |xs| ==> lo <= xs[i] <= hi
    ensures lo <= Mean(xs) <= hi
  {
    SumBounds(xs, lo, hi);
    DivBetween(Sum(xs), |xs| as real, lo, hi);
  }

  /** A sum of terms above lo exceeds |xs| * lo. */
  lemma {:induction false} SumAbove(xs: seq<real>, lo: real)
    requires xs != []
    requires forall i :: 0 <= i < |xs| ==> xs[i] > lo
    ensures Sum(xs) > |xs| as real * lo
    decreases |xs|
  {
    var n := |xs| - 1;
    if n > 0 {
      SumAbove(xs[..n], lo);
    }
    assert (n + 1) as real * lo == n as real * lo + lo;
  }

  /** The mean of values above lo is above lo. */
  lemma MeanAbove(xs: seq<real>, lo: real)
    requires xs != []
    requires forall i :: 0 <= i < |xs| ==> xs[i] > lo
    ensures Mean(xs) > lo
  {
    SumAbove(xs, lo);
    var n := |xs| as real;
    var q := Sum(xs) / n;
    assert q * n == Sum(xs);
  }

  /** The smallest value. */
  function MinOf(xs: seq<real>): (m: real)
    requires xs != []
    ensures m in xs && forall i :: 0 <= i < |xs| ==> m <= xs[i]
    decreases |xs|
  {
    if |xs| == 1 then xs[0]
    else
      var m := MinOf(xs[..|xs| - 1]);
      assert m in xs[..|xs| - 1];
      if xs[|xs| - 1] < m then xs[|xs| - 1] else m
  }

  /** The largest value. */
  function MaxOf(xs: seq<real>): (m: real)
    requires xs != []
    ensures m in xs && forall i :: 0 <= i < |xs| ==> xs[i] <= m
    decreases |xs|
  {
    if |xs| == 1 then xs[0]
    else
      var m := MaxOf(xs[..|xs| - 1]);
      assert m in xs[..|xs| - 1];
      if xs[|xs| - 1] > m then xs[|xs| - 1] else m
  }

  /** A sum of terms below hi is less than |xs| * hi. */
  lemma {:induction false} SumBelow(xs: seq<real>, hi: real)
    requires xs != []
    requires forall i :: 0 <= i < |xs| ==> xs[i] < hi
    ensures Sum(xs) < |xs| as real * hi
    decreases |xs|
  {
    var n := |xs| - 1;
    if n > 0 {
      SumBelow(xs[..n], hi);
    }
    assert (n + 1) as real * hi == n as real * hi + hi;
  }

  /** The mean of values below hi is below hi. */
  lemma MeanBelow(xs: seq<real>, hi: real)
    requires xs != []
    requires forall i :: 0 <= i < |xs| ==> xs[i] < hi
    ensures Mean(xs) < hi
  {
    SumBelow(xs, hi);
    var n := |xs| as real;
    var q := Sum(xs) / n;
    assert q * n == Sum(xs);
  }
}
