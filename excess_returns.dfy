/** Excess returns: every anomaly column minus the risk-free rate, row by row. */
module ExcessReturns {
  import opened Wrappers
  import opened Frame

  /** Cell-wise subtraction; a missing operand gives a missing result. */
  function Minus(a: Option<real>, b: Option<real>): Option<real>
  {
    if a.Some? && b.Some? then Some(a.value - b.value) else None
  }

  /** Column-wise subtraction of two aligned columns. */
  function Subtract(a: Column, b: Column): (c: Column)
    requires |a| == |b|
    ensures |c| == |a|
  {
    seq(|a|, i requires 0 <= i < |a| => Minus(a[i], b[i]))
  }

  /** `col` holds, row by row, `base - rf`. */
  predicate IsExcess(col: Column, base: Column, rf: Column)
  {
    && |col| == |base| == |rf|
    && forall i | 0 <= i < |col| :: col[i] == Minus(base[i], rf[i])
  }

  /** Builds the excess-return frame column by column. The first lookup that
      fails, of an anomaly column or of "RF" in the first iteration, is the
      error. The dates (the new index) and the regime labels are carried over. */
  method CalculateExcessReturns(df: Panel, anomalyCols: seq<string>) returns (r: Result<Panel, KeyError>)
    requires df.Valid()
    ensures r.Failure? <==>
      FirstMissing(anomalyCols, df.columns.Keys).Some? || (anomalyCols != [] && "RF" !in df.columns)
    ensures r.Failure? ==> r.error == KeyError(
      if anomalyCols != [] && anomalyCols[0] in df.columns && "RF" !in df.columns then "RF"
      else FirstMissing(anomalyCols, df.columns.Keys).value)
    ensures r.Success? ==>
      && r.value.Valid()
      && r.value.dates == df.dates && r.value.regime == df.regime
      && r.value.columns.Keys == set c | c in anomalyCols
      && forall c | c in r.value.columns ::
           c in df.columns && "RF" in df.columns && IsExcess(r.value.columns[c], df.columns[c], df.columns["RF"])
  {
    var excess: map<string, Column> := map[];
    for i := 0 to |anomalyCols|
      invariant forall m | 0 <= m < i :: anomalyCols[m] in df.columns
      invariant i > 0 ==> "RF" in df.columns
      invariant excess.Keys == set c | c in anomalyCols[..i]
      invariant forall c | c in excess ::
        c in df.columns && "RF" in df.columns && IsExcess(excess[c], df.columns[c], df.columns["RF"])
    {
      var col := anomalyCols[i];
      if col !in df.columns {
        FirstMissingAt(anomalyCols, df.columns.Keys, i);
        return Failure(KeyError(col));
      }
      if "RF" !in df.columns {
        return Failure(KeyError("RF"));
      }
      assert anomalyCols[..i + 1] == anomalyCols[..i] + [col];
      excess := excess[col := Subtract(df.columns[col], df.columns["RF"])];
    }
    assert anomalyCols[..|anomalyCols|] == anomalyCols;
    r := Success(Panel(df.dates, excess, df.regime));
  }
}
