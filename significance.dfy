/** The Newey-West t-statistic of one return series, its significance tier,
    and the per-strategy table built from them. */
module Significance {
  import opened Wrappers
  import opened Frame
  import opened NeweyWest

  /** The statistics reported for one series; undefined fields are `None`. */
  datatype NWResult = NWResult(
    mean: Option<real>,
    tStatistic: Option<real>,
    pValue: Option<real>,
    nwStdError: Option<real>,
    observations: nat,
    lagsUsed: int)

  /** One row of the strategy table. */
  datatype StrategyRow = StrategyRow(
    strategy: string,
    mean: Option<real>,
    tStatistic: Option<real>,
    pValue: Option<real>,
    nwStdError: Option<real>,
    observations: nat,
    significance: string)

  /** The t-statistic of a series: missing cells are dropped first; an empty
      sample gives an all-undefined result. numpy's square root of a negative
      variance is NaN, and a NaN or zero standard error leaves the t-statistic
      and the p-value undefined. `sqrt` (on non-negative arguments) and the
      Student-t CDF `tCdf(x, degreesOfFreedom)` are given, not modelled. */
  function NeweyWestTStat(series: Column, lags: int, sqrt: real -> real, tCdf: (real, int) -> real): (r: NWResult)
    ensures r.observations == |DropMissing(series)|
    ensures r.lagsUsed == lags
  {
    var clean := DropMissing(series);
    var n := |clean|;
    if n == 0 then NWResult(None, None, None, None, 0, lags)
    else
      var meanReturn := Mean(clean);
      var nwVariance := HacVariance(clean, lags).value;
      var nwStdError := if nwVariance < 0.0 then None else Some(sqrt(nwVariance));
      var tStatistic :=
        if nwStdError.Some? && nwStdError.value != 0.0 then Some(Divide(meanReturn, nwStdError.value)) else None;
      var pValue := if tStatistic.Some? then Some(2.0 * (1.0 - tCdf(Abs(tStatistic.value), n - 1))) else None;
      NWResult(Some(meanReturn), tStatistic, pValue, nwStdError, n, lags)
  }

  /** What the t-statistic of a series is, field by field. */
  lemma NeweyWestTStatContract(series: Column, lags: int, sqrt: real -> real, tCdf: (real, int) -> real, r: NWResult)
    requires r == NeweyWestTStat(series, lags, sqrt, tCdf)
    ensures r.observations == |DropMissing(series)|
    ensures r.lagsUsed == lags
    ensures r.observations == 0 ==> r == NWResult(None, None, None, None, 0, lags)
    ensures r.observations > 0 ==>
      var v := HacVariance(DropMissing(series), lags).value;
      && r.mean == Some(Mean(DropMissing(series)))
      && r.nwStdError == (if v < 0.0 then None else Some(sqrt(v)))
    ensures r.tStatistic.None? <==> r.nwStdError.None? || r.nwStdError == Some(0.0)
    ensures r.tStatistic.Some? ==>
      && r.nwStdError.Some? && r.nwStdError.value != 0.0 && r.mean.Some?
      && r.tStatistic.value == Divide(r.mean.value, r.nwStdError.value)
    ensures r.pValue.None? <==> r.tStatistic.None?
    ensures r.pValue.Some? ==>
      r.pValue.value == 2.0 * (1.0 - tCdf(Abs(r.tStatistic.value), r.observations - 1))
  {
  }

  /** A column without gaps keeps every observation: the reported mean is the
      mean of all its values. */
  lemma FullColumnStatistics(values: seq<real>, col: Column, lags: int,
                             sqrt: real -> real, tCdf: (real, int) -> real)
    requires |values| > 0
    requires col == seq(|values|, i requires 0 <= i < |values| => Some(values[i]))
    ensures NeweyWestTStat(col, lags, sqrt, tCdf).observations == |values|
    ensures NeweyWestTStat(col, lags, sqrt, tCdf).mean == Some(Mean(values))
  {
    DropMissingOfFullColumn(col);
    assert DropMissing(col) == values;
    NeweyWestTStatContract(col, lags, sqrt, tCdf, NeweyWestTStat(col, lags, sqrt, tCdf));
  }

  /** Significance stars: strict thresholds 0.01, 0.05, 0.10, "N/A" when the
      p-value is undefined. */
  function SignificanceTier(p: Option<real>): (tier: string)
    ensures tier == "***" <==> p.Some? && p.value < 0.01
    ensures tier == "**" <==> p.Some? && 0.01 <= p.value < 0.05
    ensures tier == "*" <==> p.Some? && 0.05 <= p.value < 0.10
    ensures tier == "" <==> p.Some? && 0.10 <= p.value
    ensures tier == "N/A" <==> p.None?
  {
    if p.Some? then
      if p.value < 0.01 then "***"
      else if p.value < 0.05 then "**"
      else if p.value < 0.10 then "*"
      else ""
    else "N/A"
  }

  /** Number of stars of a tier ("N/A" and "" have none). */
  function Stars(tier: string): nat
  {
    if tier == "***" then 3 else if tier == "**" then 2 else if tier == "*" then 1 else 0
  }

  /** A smaller p-value never earns fewer stars. */
  lemma TierIsMonotone(p: real, q: real)
    requires p <= q
    ensures Stars(SignificanceTier(Some(p))) >= Stars(SignificanceTier(Some(q)))
  {
  }

  /** The tier is "N/A" exactly for an empty sample, a negative variance
      (whose square root is NaN) or a zero standard error. */
  lemma NotApplicableTier(series: Column, lags: int, sqrt: real -> real, tCdf: (real, int) -> real)
    ensures var r := NeweyWestTStat(series, lags, sqrt, tCdf);
      SignificanceTier(r.pValue) == "N/A" <==>
        || r.observations == 0
        || HacVariance(DropMissing(series), lags).value < 0.0
        || r.nwStdError == Some(0.0)
  {
  }

  /** The sample [0, 1] with twelve lags has a negative variance, so its
      standard error, t-statistic and p-value are undefined and its tier is
      "N/A". */
  lemma NegativeVarianceIsNotApplicable(series: Column, sqrt: real -> real, tCdf: (real, int) -> real)
    requires series == [Some(0.0), Some(1.0)]
    ensures NeweyWestTStat(series, 12, sqrt, tCdf).observations == 2
    ensures NeweyWestTStat(series, 12, sqrt, tCdf).nwStdError.None?
    ensures NeweyWestTStat(series, 12, sqrt, tCdf).tStatistic.None?
    ensures SignificanceTier(NeweyWestTStat(series, 12, sqrt, tCdf).pValue) == "N/A"
  {
    assert series[1..] == [Some(1.0)];
    assert series[1..][1..] == [];
    assert DropMissing(series) == [0.0, 1.0];
    NegativeVarianceExample(DropMissing(series));
  }

  /** With a square root that maps 0 to 0, a non-empty column whose present
      values are all equal (in particular a single observation) has standard
      error 0, so its t-statistic and p-value are undefined and its tier is
      "N/A". */
  lemma ConstantColumnIsNotApplicable(series: Column, c: real, lags: int,
                                      sqrt: real -> real, tCdf: (real, int) -> real)
    requires sqrt(0.0) == 0.0
    requires Some(c) in series
    requires forall i | 0 <= i < |series| :: series[i].Some? ==> series[i].value == c
    ensures NeweyWestTStat(series, lags, sqrt, tCdf).nwStdError == Some(0.0)
    ensures NeweyWestTStat(series, lags, sqrt, tCdf).tStatistic.None?
    ensures NeweyWestTStat(series, lags, sqrt, tCdf).pValue.None?
    ensures SignificanceTier(NeweyWestTStat(series, lags, sqrt, tCdf).pValue) == "N/A"
  {
    var clean := DropMissing(series);
    DropMissingKeepsPresentValues(series);
    assert c in clean;
    forall x | x in clean ensures x == c {
      assert Some(x) in series;
      var k :| 0 <= k < |series| && series[k] == Some(x);
    }
    assert forall i | 0 <= i < |clean| :: clean[i] in clean;
    ConstantSampleHasZeroVariance(clean, c, lags);
  }

  /** With a CDF valued in [1/2, 1] at non-negative points, a defined p-value
      lies in [0, 1]. */
  lemma PValueIsProbability(series: Column, lags: int, sqrt: real -> real, tCdf: (real, int) -> real)
    requires forall x: real, k: int :: 0.0 <= x ==> 0.5 <= tCdf(x, k) <= 1.0
    ensures var r := NeweyWestTStat(series, lags, sqrt, tCdf);
      r.pValue.Some? ==> 0.0 <= r.pValue.value <= 1.0
  {
    var r := NeweyWestTStat(series, lags, sqrt, tCdf);
    if r.pValue.Some? {
      assert 0.5 <= tCdf(Abs(r.tStatistic.value), r.observations - 1) <= 1.0;
    }
  }

  /** An empty series gives the all-undefined result and tier "N/A". */
  lemma EmptySample(lags: int, sqrt: real -> real, tCdf: (real, int) -> real)
    ensures NeweyWestTStat([], lags, sqrt, tCdf) == NWResult(None, None, None, None, 0, lags)
    ensures SignificanceTier(NeweyWestTStat([], lags, sqrt, tCdf).pValue) == "N/A"
  {
  }

  function StrategyRowOf(strategy: string, res: NWResult): StrategyRow
  {
    StrategyRow(strategy, res.mean, res.tStatistic, res.pValue, res.nwStdError,
                res.observations, SignificanceTier(res.pValue))
  }

  predicate NoDuplicates(s: seq<string>)
  {
    forall i, j | 0 <= i < j < |s| :: s[i] != s[j]
  }

  /** The keys of a dictionary filled in the order of `s`: each name once, at
      its first occurrence. */
  function Distinct(s: seq<string>): seq<string>
  {
    if s == [] then []
    else
      var p := Distinct(s[..|s| - 1]);
      if s[|s| - 1] in p then p else p + [s[|s| - 1]]
  }

  lemma DistinctSnoc(s: seq<string>, i: nat)
    requires i < |s|
    ensures Distinct(s[..i + 1]) ==
      if s[i] in Distinct(s[..i]) then Distinct(s[..i]) else Distinct(s[..i]) + [s[i]]
  {
    assert s[..i + 1][..i] == s[..i];
  }

  /** Every name appears among the keys, and no key twice. */
  lemma {:induction false} DistinctKeys(s: seq<string>)
    ensures forall x :: x in Distinct(s) <==> x in s
    ensures NoDuplicates(Distinct(s))
  {
    if s != [] {
      var init := s[..|s| - 1];
      DistinctKeys(init);
      assert s == init + [s[|s| - 1]];
    }
  }

  /** Without repeated names the table has exactly one row per name, in order. */
  lemma {:induction false} DistinctOfDistinct(s: seq<string>)
    requires NoDuplicates(s)
    ensures Distinct(s) == s
  {
    if s != [] {
      var init := s[..|s| - 1];
      assert NoDuplicates(init);
      DistinctOfDistinct(init);
      assert s[|s| - 1] !in init;
      assert s == init + [s[|s| - 1]];
    }
  }

  /** The second pass: one row per dictionary key, in key order, with the
      significance tier of its p-value. */
  method SignificanceRows(resultsKeys: seq<string>, results: map<string, NWResult>)
    returns (data: seq<StrategyRow>)
    requires forall k | k in resultsKeys :: k in results
    ensures |data| == |resultsKeys|
    ensures forall m | 0 <= m < |data| :: data[m] == StrategyRowOf(resultsKeys[m], results[resultsKeys[m]])
  {
    data := [];
    var k := 0;
    while k < |resultsKeys|
      invariant 0 <= k <= |resultsKeys|
      invariant |data| == k
      invariant forall m | 0 <= m < k :: data[m] == StrategyRowOf(resultsKeys[m], results[resultsKeys[m]])
    {
      var strategy := resultsKeys[k];
      var res := results[strategy];
      var sigLevel := SignificanceTier(res.pValue);
      data := data + [StrategyRow(strategy, res.mean, res.tStatistic, res.pValue, res.nwStdError,
                                  res.observations, sigLevel)];
      k := k + 1;
    }
  }

  /** The first pass: the t-statistic of every named column, stored in a
      dictionary whose keys keep first-occurrence order. A name that is not a
      column fails with that name, as the frame lookup does. */
  method StrategyResults(df: Panel, anomalyCols: seq<string>, lags: int,
                         sqrt: real -> real, tCdf: (real, int) -> real)
    returns (r: Result<(seq<string>, map<string, NWResult>), KeyError>)
    ensures r.Failure? <==> FirstMissing(anomalyCols, df.columns.Keys).Some?
    ensures r.Failure? ==> r.error == KeyError(FirstMissing(anomalyCols, df.columns.Keys).value)
    ensures r.Success? ==>
      var (resultsKeys, results) := r.value;
      && resultsKeys == Distinct(anomalyCols)
      && (forall k :: k in results <==> k in resultsKeys)
      && forall k | k in results ::
           k in df.columns && results[k] == NeweyWestTStat(df.columns[k], lags, sqrt, tCdf)
  {
    var columns := df.columns;
    var resultsKeys: seq<string> := [];
    var results: map<string, NWResult> := map[];
    var i := 0;
    while i < |anomalyCols|
      invariant 0 <= i <= |anomalyCols|
      invariant forall m | 0 <= m < i :: anomalyCols[m] in columns
      invariant resultsKeys == Distinct(anomalyCols[..i])
      invariant forall k :: k in results <==> k in resultsKeys
      invariant forall k | k in results ::
        k in columns && results[k] == NeweyWestTStat(columns[k], lags, sqrt, tCdf)
    {
      var column := anomalyCols[i];
      if column !in columns {
        FirstMissingAt(anomalyCols, columns.Keys, i);
        return Failure(KeyError(column));
      }
      assert forall m | 0 <= m < i + 1 :: anomalyCols[m] in columns;
      DistinctSnoc(anomalyCols, i);
      if column !in results {
        resultsKeys := resultsKeys + [column];
      }
      results := results[column := NeweyWestTStat(columns[column], lags, sqrt, tCdf)];
      i := i + 1;
    }
    assert anomalyCols[..i] == anomalyCols;
    return Success((resultsKeys, results));
  }

  /** Builds the strategy table: the t-statistics of the named columns, then
      one row per dictionary key with its significance tier. */
  method TStatsForStrategies(df: Panel, anomalyCols: seq<string>, lags: int,
                             sqrt: real -> real, tCdf: (real, int) -> real)
    returns (r: Result<seq<StrategyRow>, KeyError>)
    ensures r.Failure? <==> FirstMissing(anomalyCols, df.columns.Keys).Some?
    ensures r.Failure? ==> r.error == KeyError(FirstMissing(anomalyCols, df.columns.Keys).value)
    ensures r.Success? ==>
      var keys := Distinct(anomalyCols);
      && |r.value| == |keys|
      && forall i | 0 <= i < |keys| ::
           keys[i] in df.columns &&
           r.value[i] == StrategyRowOf(keys[i], NeweyWestTStat(df.columns[keys[i]], lags, sqrt, tCdf))
  {
    var collected := StrategyResults(df, anomalyCols, lags, sqrt, tCdf);
    if collected.Failure? {
      return Failure(collected.error);
    }
    var (resultsKeys, results) := collected.value;
    var data := SignificanceRows(resultsKeys, results);
    return Success(data);
  }
}
