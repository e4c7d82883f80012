/** Labelling every row of a panel with the macroeconomic regime whose
    inclusive date range contains the row's date. */
module Regimes {
  import opened Wrappers
  import opened Frame

  /** One entry of the regime dictionary: a name and an inclusive range of
      dates (as day numbers). */
  datatype RegimePeriod = RegimePeriod(name: string, start: int, end: int)

  predicate Covers(period: RegimePeriod, date: int)
  {
    period.start <= date <= period.end
  }

  /** The label that overwriting in dictionary order leaves on a date: the
      last period that covers it, or none. */
  function LastCovering(periods: seq<RegimePeriod>, date: int): Option<string>
  {
    if periods == [] then None
    else if Covers(periods[|periods| - 1], date) then Some(periods[|periods| - 1].name)
    else LastCovering(periods[..|periods| - 1], date)
  }

  /** No covering period gives no label; otherwise the label is the name of a
      covering period after which no period covers the date. */
  lemma {:induction false} LastCoveringIsLastMatch(periods: seq<RegimePeriod>, date: int)
    ensures LastCovering(periods, date).None? <==>
      forall k | 0 <= k < |periods| :: !Covers(periods[k], date)
    ensures LastCovering(periods, date).Some? ==>
      exists k | 0 <= k < |periods| ::
        && Covers(periods[k], date)
        && periods[k].name == LastCovering(periods, date).value
        && forall m | k < m < |periods| :: !Covers(periods[m], date)
  {
    if periods != [] {
      var init := periods[..|periods| - 1];
      LastCoveringIsLastMatch(init, date);
      assert forall k | 0 <= k < |init| :: init[k] == periods[k];
    }
  }

  /** Copies the panel with a fresh regime column: every row starts without a
      label, then each period in turn overwrites the label of the rows whose
      date it covers. Dates and numeric columns are untouched. */
  method AddRegimeColumn(df: Panel, regimePeriods: seq<RegimePeriod>) returns (r: Panel)
    requires df.Valid()
    ensures r.Valid()
    ensures r.dates == df.dates && r.columns == df.columns
    ensures |r.regime| == |df.dates|
    ensures forall i | 0 <= i < |df.dates| :: r.regime[i] == LastCovering(regimePeriods, df.dates[i])
  {
    var n := |df.dates|;
    var labels := new Option<string>[n](_ => None);
    for k := 0 to |regimePeriods|
      invariant forall i | 0 <= i < n :: labels[i] == LastCovering(regimePeriods[..k], df.dates[i])
    {
      var period := regimePeriods[k];
      assert regimePeriods[..k + 1][..k] == regimePeriods[..k];
      for i := 0 to n
        invariant forall m | 0 <= m < i :: labels[m] == LastCovering(regimePeriods[..k + 1], df.dates[m])
        invariant forall m | i <= m < n :: labels[m] == LastCovering(regimePeriods[..k], df.dates[m])
      {
        if period.start <= df.dates[i] <= period.end {
          labels[i] := Some(period.name);
        }
      }
    }
    assert regimePeriods[..|regimePeriods|] == regimePeriods;
    r := Panel(df.dates, df.columns, labels[..]);
  }
}
