/**
 * Pearson correlation as pearsonCorrelation computes it (src/lib/audio-utils.ts):
 * means by a left-to-right sum, the three deviation sums of one loop, and 0 when
 * the square root of the product of the two variance sums is 0. The square root is
 * floating point and is a parameter of the model.
 */
module Correlation {

  /** `values.reduce((a, b) => a + b, 0)`. */
  function Sum(s: seq<real>): real
  {
    if |s| == 0 then 0.0 else Sum(s[..|s| - 1]) + s[|s| - 1]
  }

  function Mean(s: seq<real>): real
    requires |s| > 0
  {
    Sum(s) / |s| as real
  }

  /** The loop's accumulator over i < k of (x[i] - mx) * (y[i] - my). */
  function DeviationProducts(x: seq<real>, y: seq<real>, mx: real, my: real, k: nat): real
    requires k <= |x| && k <= |y|
  {
    if k == 0 then 0.0
    else DeviationProducts(x, y, mx, my, k - 1) + (x[k - 1] - mx) * (y[k - 1] - my)
  }

  /** `num`, `denomX` and `denomY` of pearsonCorrelation after its loop. */
  function Covariance(x: seq<real>, y: seq<real>): real
    requires |x| == |y| > 0
  {
    DeviationProducts(x, y, Mean(x), Mean(y), |x|)
  }

  /**
   * The Pearson coefficient: the covariance divided by the root of the product of the
   * two variance sums, and 0 when that root is 0.
   */
  function Pearson(x: seq<real>, y: seq<real>, sqrt: real -> real): (r: real)
    requires |x| == |y| > 0
    ensures sqrt(Covariance(x, x) * Covariance(y, y)) == 0.0 ==> r == 0.0
    ensures sqrt(Covariance(x, x) * Covariance(y, y)) != 0.0 ==> r * sqrt(Covariance(x, x) * Covariance(y, y)) == Covariance(x, y)
  {
    var denom := sqrt(Covariance(x, x) * Covariance(y, y));
    if denom == 0.0 then 0.0 else Covariance(x, y) / denom
  }

  /** The deviation products do not depend on which vector comes first. */
  lemma {:induction false} DeviationProductsSymmetric(x: seq<real>, y: seq<real>, mx: real, my: real, k: nat)
    requires k <= |x| && k <= |y|
    ensures DeviationProducts(x, y, mx, my, k) == DeviationProducts(y, x, my, mx, k)
  {
    if k > 0 {
      DeviationProductsSymmetric(x, y, mx, my, k - 1);
    }
  }

  /** Correlating x with y gives the same score as correlating y with x. */
  lemma PearsonSymmetric(x: seq<real>, y: seq<real>, sqrt: real -> real)
    requires |x| == |y| > 0
    ensures Pearson(x, y, sqrt) == Pearson(y, x, sqrt)
  {
    DeviationProductsSymmetric(x, y, Mean(x), Mean(y), |x|);
    assert Covariance(x, x) * Covariance(y, y) == Covariance(y, y) * Covariance(x, x);
  }

  /** The sum of n copies of c is n * c. */
  lemma {:induction false} SumOfConstant(s: seq<real>, c: real)
    requires forall i :: 0 <= i < |s| ==> s[i] == c
    ensures Sum(s) == |s| as real * c
  {
    if |s| > 0 {
      SumOfConstant(s[..|s| - 1], c);
    }
  }

  /** Deviations from the value itself are all zero. */
  lemma {:induction false} NoDeviation(x: seq<real>, y: seq<real>, c: real, my: real, k: nat)
    requires k <= |x| && k <= |y|
    requires forall i :: 0 <= i < |x| ==> x[i] == c
    ensures DeviationProducts(x, y, c, my, k) == 0.0
    ensures DeviationProducts(x, x, c, c, k) == 0.0
  {
    if k > 0 {
      NoDeviation(x, y, c, my, k - 1);
    }
  }

  /**
   * A flat vector (every entry equal) has zero variance, so the zero-denominator rule
   * gives it correlation 0 against any profile, provided the root of 0 is 0.
   */
  lemma FlatVectorScoresZero(x: seq<real>, y: seq<real>, sqrt: real -> real)
    requires |x| == |y| > 0
    requires sqrt(0.0) == 0.0
    requires forall i :: 0 <= i < |x| ==> x[i] == x[0]
    ensures Pearson(x, y, sqrt) == 0.0
  {
    SumOfConstant(x, x[0]);
    assert Mean(x) == x[0];
    NoDeviation(x, y, x[0], Mean(y), |x|);
    assert Covariance(x, x) * Covariance(y, y) == 0.0;
  }

  /** The non-negative root of d * d, for an exact square root, is d. */
  lemma RootOfSquare(d: real, sqrt: real -> real)
    requires d >= 0.0
    requires sqrt(d * d) >= 0.0 && sqrt(d * d) * sqrt(d * d) == d * d
    ensures sqrt(d * d) == d
  {
    var s := sqrt(d * d);
    assert (s - d) * (s + d) == 0.0;
    if s + d == 0.0 {
      assert s == 0.0 && d == 0.0;
    } else {
      assert s - d == ((s - d) * (s + d)) / (s + d);
    }
  }

  /** The deviation sum of a vector with itself is never negative. */
  lemma {:induction false} SquaresNonNegative(x: seq<real>, m: real, k: nat)
    requires k <= |x|
    ensures DeviationProducts(x, x, m, m, k) >= 0.0
  {
    if k > 0 {
      SquaresNonNegative(x, m, k - 1);
    }
  }

  /**
   * With an exact square root, a vector that varies correlates perfectly (score 1)
   * with itself.
   */
  lemma IdenticalVectorsScoreOne(x: seq<real>, sqrt: real -> real)
    requires |x| > 0
    requires Covariance(x, x) != 0.0
    requires forall v :: 0.0 <= v ==> 0.0 <= sqrt(v) && sqrt(v) * sqrt(v) == v
    ensures Pearson(x, x, sqrt) == 1.0
  {
    var d := Covariance(x, x);
    SquaresNonNegative(x, Mean(x), |x|);
    assert d * d >= 0.0;
    assert 0.0 <= sqrt(d * d) && sqrt(d * d) * sqrt(d * d) == d * d;
    RootOfSquare(d, sqrt);
    assert sqrt(d * d) == d;
    assert d / d == 1.0;
    assert Covariance(x, x) * Covariance(x, x) == d * d;
    assert Pearson(x, x, sqrt) == d / d;
  }
}
