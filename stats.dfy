/** The summary statistics the reports print: mean, minimum, maximum and the
    population variance (sum of squared deviations divided by the count). */
module Stats {

  function Sum(xs: seq<real>): real {
    if |xs| == 0 then 0.0 else Sum(xs[..|xs| - 1]) + xs[|xs| - 1]
  }

  function Mean(xs: seq<real>): real
    requires |xs| > 0
  {
    Sum(xs) / |xs| as real
  }

  /** `min(xs)`: an element no element is below. */
  function Minimum(xs: seq<real>): (m: real)
    requires |xs| > 0
    ensures m in xs && forall k :: 0 <= k < |xs| ==> m <= xs[k]
  {
    if |xs| == 1 then xs[0]
    else
      var m := Minimum(xs[..|xs| - 1]);
      assert forall k :: 0 <= k < |xs| - 1 ==> xs[..|xs| - 1][k] == xs[k];
      if xs[|xs| - 1] < m then xs[|xs| - 1] else m
  }

  /** `max(xs)`: an element no element is above. */
  function Maximum(xs: seq<real>): (m: real)
    requires |xs| > 0
    ensures m in xs && forall k :: 0 <= k < |xs| ==> xs[k] <= m
  {
    if |xs| == 1 then xs[0]
    else
      var m := Maximum(xs[..|xs| - 1]);
      assert forall k :: 0 <= k < |xs| - 1 ==> xs[..|xs| - 1][k] == xs[k];
      if xs[|xs| - 1] > m then xs[|xs| - 1] else m
  }

  /** `d ** 2`. */
  function Square(d: real): real {
    d * d
  }

  function SquaredDeviations(xs: seq<real>, m: real): real {
    if |xs| == 0 then 0.0
    else SquaredDeviations(xs[..|xs| - 1], m) + Square(xs[|xs| - 1] - m)
  }

  /** The population variance. */
  function Variance(xs: seq<real>): real
    requires |xs| > 0
  {
    SquaredDeviations(xs, Mean(xs)) / |xs| as real
  }

  /** Integers as reals, element by element. */
  function ToReals(xs: seq<int>): (rs: seq<real>)
    ensures |rs| == |xs| && forall k :: 0 <= k < |xs| ==> rs[k] == xs[k] as real
  {
    seq(|xs|, k requires 0 <= k < |xs| => xs[k] as real)
  }

  /** Bounds on the elements bound the sum. */
  lemma {:induction false} SumBounds(xs: seq<real>, lo: real, hi: real)
    requires forall k :: 0 <= k < |xs| ==> lo <= xs[k] <= hi
    ensures |xs| as real * lo <= Sum(xs) <= |xs| as real * hi
  {
    if |xs| > 0 {
      SumBounds(xs[..|xs| - 1], lo, hi);
      assert forall k :: 0 <= k < |xs| - 1 ==> xs[..|xs| - 1][k] == xs[k];
    }
  }

  /** The sum of a constant list. */
  lemma {:induction false} SumConstant(xs: seq<real>, c: real)
    requires forall k :: 0 <= k < |xs| ==> xs[k] == c
    ensures Sum(xs) == |xs| as real * c
  {
    SumBounds(xs, c, c);
  }

  /** The mean lies between the minimum and the maximum. */
  lemma MeanBetween(xs: seq<real>)
    requires |xs| > 0
    ensures Minimum(xs) <= Mean(xs) <= Maximum(xs)
  {
    MeanBounds(xs, Minimum(xs), Maximum(xs));
  }

  /** Bounds on the elements bound the mean. */
  lemma MeanBounds(xs: seq<real>, lo: real, hi: real)
    requires |xs| > 0
    requires forall k :: 0 <= k < |xs| ==> lo <= xs[k] <= hi
    ensures lo <= Mean(xs) <= hi
  {
    SumBounds(xs, lo, hi);
    QuotientBounds(Sum(xs), |xs| as real, lo, hi);
  }

  lemma QuotientBounds(s: real, n: real, lo: real, hi: real)
    requires n > 0.0 && n * lo <= s <= n * hi
    ensures lo <= s / n <= hi
  {
    var q := s / n;
    assert q * n == s;
    assert (q - lo) * n == s - n * lo >= 0.0;
    assert (hi - q) * n == n * hi - s >= 0.0;
  }

  /** A product of positive reals is positive; the product is returned so
      that the fact stays attached to it. */
  lemma MulPositive(a: real, b: real) returns (p: real)
    requires a > 0.0 && b > 0.0
    ensures p == a * b && p > 0.0
  {
    p := a * b;
  }

  /** A square is never negative, and positive away from zero. */
  lemma SquareSign(d: real)
    ensures Square(d) >= 0.0
    ensures d != 0.0 ==> Square(d) > 0.0
  {
    var s: real;
    if d > 0.0 {
      s := MulPositive(d, d);
    } else if d < 0.0 {
      s := MulPositive(-d, -d);
      assert s == d * d;
    }
  }

  /** A sum of squares is never negative, and it is zero exactly when every
      element equals the centre. */
  lemma {:induction false} SquaredDeviationsZero(xs: seq<real>, m: real)
    ensures SquaredDeviations(xs, m) >= 0.0
    ensures SquaredDeviations(xs, m) == 0.0 <==> forall k :: 0 <= k < |xs| ==> xs[k] == m
  {
    if |xs| > 0 {
      var init, x := xs[..|xs| - 1], xs[|xs| - 1];
      SquaredDeviationsZero(init, m);
      SquareSign(x - m);
      assert forall k :: 0 <= k < |init| ==> init[k] == xs[k];
      assert (forall k :: 0 <= k < |xs| ==> xs[k] == m)
        <==> (forall k :: 0 <= k < |init| ==> init[k] == m) && x == m;
    }
  }

  /** The variance is never negative. */
  lemma VarianceNonNegative(xs: seq<real>)
    requires |xs| > 0
    ensures Variance(xs) >= 0.0
  {
    SquaredDeviationsZero(xs, Mean(xs));
  }

  /** The variance is zero exactly when all elements are equal. */
  lemma VarianceZeroIff(xs: seq<real>)
    requires |xs| > 0
    ensures Variance(xs) == 0.0 <==> forall i, j :: 0 <= i < |xs| && 0 <= j < |xs| ==> xs[i] == xs[j]
  {
    var n := |xs| as real;
    SquaredDeviationsZero(xs, Mean(xs));
    if forall i, j :: 0 <= i < |xs| && 0 <= j < |xs| ==> xs[i] == xs[j] {
      SumConstant(xs, xs[0]);
      assert Mean(xs) == xs[0];
    }
    if Variance(xs) == 0.0 {
      assert SquaredDeviations(xs, Mean(xs)) == Variance(xs) * n;
    }
  }

  /** How many of the thresholds `x` reaches. */
  function Reached(thresholds: seq<real>, x: real): (n: nat)
    ensures n <= |thresholds|
  {
    if |thresholds| == 0 then 0
    else Reached(thresholds[..|thresholds| - 1], x) + (if thresholds[|thresholds| - 1] <= x then 1 else 0)
  }

  lemma ReachedSnoc(thresholds: seq<real>, t: real, x: real)
    ensures Reached(thresholds + [t], x) == Reached(thresholds, x) + (if t <= x then 1 else 0)
  {
    assert (thresholds + [t])[..|thresholds|] == thresholds;
  }

  lemma {:induction false} ReachedMonotone(thresholds: seq<real>, x: real, y: real)
    requires x <= y
    ensures Reached(thresholds, x) <= Reached(thresholds, y)
  {
    if |thresholds| > 0 {
      ReachedMonotone(thresholds[..|thresholds| - 1], x, y);
    }
  }

  /** A count out of a positive total, as a fraction. */
  lemma FractionFacts(c: nat, n: nat)
    requires c <= n && n > 0
    ensures 0.0 <= c as real / n as real <= 1.0
    ensures c as real / n as real == 1.0 <==> c == n
    ensures c == 0 ==> c as real / n as real == 0.0
  {
    var q := c as real / n as real;
    QuotientBounds(c as real, n as real, 0.0, 1.0);
    assert q * n as real == c as real;
  }
}
