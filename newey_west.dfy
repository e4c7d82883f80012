/** Newey-West (HAC) variance of a sample mean, with Bartlett kernel weights.
    Numbers are exact reals; an empty sample has no variance (`None`). */
module NeweyWest {
  import opened Wrappers
  import opened Frame

  /** Each observation minus the sample mean. */
  function Demean(s: seq<real>): (d: seq<real>)
    requires |s| > 0
    ensures |d| == |s|
    ensures forall i | 0 <= i < |s| :: d[i] == s[i] - Mean(s)
  {
    seq(|s|, i requires 0 <= i < |s| => s[i] - Mean(s))
  }

  /** Shifting every value by c shifts the sum by n * c. */
  lemma {:induction false} SumOfShifted(s: seq<real>, d: seq<real>, c: real)
    requires |d| == |s|
    requires forall i | 0 <= i < |s| :: d[i] == s[i] - c
    ensures Sum(d) == Sum(s) - (|s| as real) * c
  {
    if s != [] {
      SumOfShifted(s[1..], d[1..], c);
    }
  }

  /** The demeaned values sum to zero. */
  lemma DemeanSumsToZero(s: seq<real>)
    requires |s| > 0
    ensures Sum(Demean(s)) == 0.0
  {
    SumOfShifted(s, Demean(s), Mean(s));
    var n := |s| as real;
    assert n * Divide(Sum(s), n) == Sum(s);
  }

  /** The n - j products d[k + j] * d[k] of the overlapping pairs at lag j. */
  function LagProducts(d: seq<real>, j: nat): (p: seq<real>)
    requires j <= |d|
    ensures |p| == |d| - j
    ensures forall k | 0 <= k < |d| - j :: p[k] == d[k + j] * d[k]
  {
    seq(|d| - j, k requires 0 <= k < |d| - j => d[k + j] * d[k])
  }

  /** gamma_j: the mean of the lag-j products; gamma_0 is the mean of the
      squares, i.e. the population variance (denominator n). */
  function Autocovariance(d: seq<real>, j: nat): real
    requires j < |d|
  {
    Mean(LagProducts(d, j))
  }

  /** Bartlett kernel weight 1 - j / (L + 1); only lags 1..L are weighted. */
  function BartlettWeight(j: int, lags: int): (w: real)
    requires 1 <= j <= lags
    ensures 0.0 < w < 1.0
  {
    var q := Divide(j as real, (lags + 1) as real);
    assert q * ((lags + 1) as real) == j as real;
    1.0 - q
  }

  /** The contribution of lag j: nothing when j >= n. */
  function LagTerm(d: seq<real>, j: int, lags: int): real
    requires 1 <= j <= lags
  {
    if j < |d| then 2.0 * BartlettWeight(j, lags) * Autocovariance(d, j) else 0.0
  }

  /** The running sum of the lag terms for j = 1..m. */
  function LagSum(d: seq<real>, lags: int, m: int): real
    requires m < 1 || m <= lags
    decreases m
  {
    if m < 1 then 0.0 else LagSum(d, lags, m - 1) + LagTerm(d, m, lags)
  }

  /** The same sum without the guard: j = 1..m, every m < n. */
  function TruncatedLagSum(d: seq<real>, lags: int, m: int): real
    requires m < |d|
    requires m < 1 || m <= lags
    decreases m
  {
    if m < 1 then 0.0
    else TruncatedLagSum(d, lags, m - 1) + 2.0 * BartlettWeight(m, lags) * Autocovariance(d, m)
  }

  /** The HAC variance of the mean, (gamma_0 + sum of weighted lag terms) / n,
      undefined for an empty sample. */
  function HacVariance(x: seq<real>, lags: int): (v: Option<real>)
    ensures v.Some? <==> |x| > 0
  {
    if |x| == 0 then None
    else
      var d := Demean(x);
      Some(Divide(Autocovariance(d, 0) + LagSum(d, lags, lags), |x| as real))
  }

  /** The loop over lags 1..L that skips every lag j >= n. */
  method WeightedLagSum(d: seq<real>, lags: int) returns (gammaJSum: real)
    ensures gammaJSum == LagSum(d, lags, lags)
  {
    var n := |d|;
    gammaJSum := 0.0;
    var j := 1;
    while j <= lags
      invariant 1 <= j <= (if lags < 1 then 1 else lags + 1)
      invariant gammaJSum == LagSum(d, lags, j - 1)
    {
      if j < n {
        var gammaJ := Autocovariance(d, j);
        var weight := BartlettWeight(j, lags);
        var term := 2.0 * weight * gammaJ;
        assert term == LagTerm(d, j, lags);
        gammaJSum := gammaJSum + term;
      }
      j := j + 1;
    }
  }

  /** The estimator as functions.py computes it: demean, gamma_0, then the
      weighted lag sum. */
  method NeweyWestVariance(sample: seq<real>, lags: int) returns (v: Option<real>)
    ensures v == HacVariance(sample, lags)
  {
    var n := |sample|;
    if n == 0 {
      return None;
    }
    var demeanedReturns := Demean(sample);
    var gamma0 := Autocovariance(demeanedReturns, 0);
    var gammaJSum := WeightedLagSum(demeanedReturns, lags);
    v := Some(Divide(gamma0 + gammaJSum, n as real));
  }

  /** With no lags (or a negative lag count) the estimator is gamma_0 / n. */
  lemma NoLagsIsGammaZeroOverN(x: seq<real>, lags: int)
    requires |x| > 0 && lags <= 0
    ensures HacVariance(x, lags) == Some(Divide(Autocovariance(Demean(x), 0), |x| as real))
  {
  }

  lemma {:induction false} LagSumIsTruncated(d: seq<real>, lags: int, m: int)
    requires |d| > 0
    requires m < 1 || m <= lags
    ensures LagSum(d, lags, m) == TruncatedLagSum(d, lags, Min(m, |d| - 1))
    decreases m
  {
    if m >= 1 {
      LagSumIsTruncated(d, lags, m - 1);
      if m < |d| {
        assert Min(m, |d| - 1) == m && Min(m - 1, |d| - 1) == m - 1;
        assert LagTerm(d, m, lags) == 2.0 * BartlettWeight(m, lags) * Autocovariance(d, m);
      } else {
        assert Min(m, |d| - 1) == |d| - 1 == Min(m - 1, |d| - 1);
        assert LagTerm(d, m, lags) == 0.0;
      }
    }
  }

  /** Lags j >= n are skipped: the estimator sums exactly the lags
      1..min(L, n - 1). */
  lemma HacVarianceSumsLagsBelowN(x: seq<real>, lags: int)
    requires |x| > 0
    ensures HacVariance(x, lags) == Some(Divide(
      Autocovariance(Demean(x), 0) + TruncatedLagSum(Demean(x), lags, Min(lags, |x| - 1)), |x| as real))
  {
    LagSumIsTruncated(Demean(x), lags, lags);
  }

  lemma SumOfPair(s: seq<real>)
    requires |s| == 2
    ensures Sum(s) == s[0] + s[1]
  {
    assert s[1..][1..] == [];
    assert Sum(s[1..]) == s[1] + Sum(s[1..][1..]);
  }

  /** The lag-j autocovariances are means over the n - j overlapping pairs, not
      sums divided by n, so the estimate can be negative: for the sample
      [0, 1] with twelve lags it is -11/104. */
  lemma NegativeVarianceExample(x: seq<real>)
    requires x == [0.0, 1.0]
    ensures HacVariance(x, 12) == Some(-11.0 / 104.0)
  {
    HacVarianceSumsLagsBelowN(x, 12);
    SumOfPair(x);
    assert Mean(x) == 0.5;
    var d := Demean(x);
    assert d == [-0.5, 0.5];
    var p0 := LagProducts(d, 0);
    assert p0 == [0.25, 0.25];
    SumOfPair(p0);
    assert Autocovariance(d, 0) == 0.25;
    var p1 := LagProducts(d, 1);
    assert p1 == [-0.25];
    assert Sum(p1) == -0.25 by {
      assert p1[1..] == [];
    }
    assert Autocovariance(d, 1) == -0.25;
    assert BartlettWeight(1, 12) == 12.0 / 13.0;
    assert Min(12, |x| - 1) == 1;
    assert TruncatedLagSum(d, 12, 1) == 2.0 * (12.0 / 13.0) * -0.25;
  }

  lemma AutocovarianceOfZeros(d: seq<real>, j: nat)
    requires j < |d|
    requires forall i | 0 <= i < |d| :: d[i] == 0.0
    ensures Autocovariance(d, j) == 0.0
  {
    var p := LagProducts(d, j);
    forall k | 0 <= k < |p| ensures p[k] == 0.0 {
      assert d[k + j] == 0.0 && d[k] == 0.0;
    }
    SumOfConstant(p, 0.0);
    assert Sum(p) == 0.0;
  }

  lemma {:induction false} LagSumOfZeros(d: seq<real>, lags: int, m: int)
    requires m < 1 || m <= lags
    requires forall i | 0 <= i < |d| :: d[i] == 0.0
    ensures LagSum(d, lags, m) == 0.0
    decreases m
  {
    if m >= 1 {
      LagSumOfZeros(d, lags, m - 1);
      if m < |d| {
        AutocovarianceOfZeros(d, m);
      }
    }
  }

  /** A sample of identical values has zero HAC variance for every lag count. */
  lemma ConstantSampleHasZeroVariance(x: seq<real>, c: real, lags: int)
    requires |x| > 0
    requires forall i | 0 <= i < |x| :: x[i] == c
    ensures HacVariance(x, lags) == Some(0.0)
  {
    MeanOfConstant(x, c);
    var d := Demean(x);
    assert forall i | 0 <= i < |d| :: d[i] == 0.0;
    AutocovarianceOfZeros(d, 0);
    LagSumOfZeros(d, lags, lags);
  }

  /** A single observation has zero HAC variance. */
  lemma SingleObservationHasZeroVariance(x: seq<real>, lags: int)
    requires |x| == 1
    ensures HacVariance(x, lags) == Some(0.0)
  {
    ConstantSampleHasZeroVariance(x, x[0], lags);
  }

  /** gamma_0, a mean of squares, is never negative. */
  lemma GammaZeroNonNegative(d: seq<real>)
    requires |d| > 0
    ensures Autocovariance(d, 0) >= 0.0
  {
    var p := LagProducts(d, 0);
    forall k | 0 <= k < |p| ensures p[k] >= 0.0 {
      assert p[k] == d[k] * d[k];
    }
    SumNonNegative(p);
  }
}
