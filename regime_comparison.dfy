/** The pieces of the regime comparison that are exact: the mean difference
    reported by the two-group test and the zero-standard-deviation guard of
    the annualised Sharpe ratio. */
module RegimeComparison {
  import opened Wrappers
  import opened Frame

  /** The mean of a column, skipping missing cells: undefined exactly when
      every cell is missing, as pandas' mean of an all-NaN column is NaN. */
  function GroupMean(col: Column): (m: Option<real>)
    ensures m.None? <==> forall i | 0 <= i < |col| :: col[i].None?
    ensures m.Some? ==> DropMissing(col) != [] && m.value == Mean(DropMissing(col))
  {
    var xs := DropMissing(col);
    DropMissingKeepsPresentValues(col);
    if xs == [] then None else Some(Mean(xs))
  }

  function Negate(x: Option<real>): Option<real>
  {
    if x.Some? then Some(-x.value) else None
  }

  /** The "Difference" field: mean of the first group minus mean of the second. */
  function WelchDifference(group1: Column, group2: Column): (d: Option<real>)
    ensures d.Some? <==> GroupMean(group1).Some? && GroupMean(group2).Some?
    ensures d.Some? ==> d.value + GroupMean(group2).value == GroupMean(group1).value
  {
    var m1 := GroupMean(group1);
    var m2 := GroupMean(group2);
    if m1.Some? && m2.Some? then Some(m1.value - m2.value) else None
  }

  /** Swapping the groups negates the difference. */
  lemma WelchDifferenceAntisymmetric(group1: Column, group2: Column)
    ensures WelchDifference(group2, group1) == Negate(WelchDifference(group1, group2))
  {
  }

  /** Groups [0.01, 0.02, 0.03] and [0.04, 0.05, 0.06] differ by exactly -0.03. */
  lemma WelchDifferenceExample()
    ensures WelchDifference([Some(0.01), Some(0.02), Some(0.03)], [Some(0.04), Some(0.05), Some(0.06)]) == Some(-0.03)
  {
    var g1 := [Some(0.01), Some(0.02), Some(0.03)];
    var g2 := [Some(0.04), Some(0.05), Some(0.06)];
    assert DropMissing(g1) == [0.01, 0.02, 0.03] by {
      assert g1[1..] == [Some(0.02), Some(0.03)];
      assert g1[1..][1..] == [Some(0.03)];
    }
    assert DropMissing(g2) == [0.04, 0.05, 0.06] by {
      assert g2[1..] == [Some(0.05), Some(0.06)];
      assert g2[1..][1..] == [Some(0.06)];
    }
    assert Sum([0.01, 0.02, 0.03]) == 0.06 by {
      assert [0.01, 0.02, 0.03][1..] == [0.02, 0.03];
      assert [0.02, 0.03][1..] == [0.03];
    }
    assert Sum([0.04, 0.05, 0.06]) == 0.15 by {
      assert [0.04, 0.05, 0.06][1..] == [0.05, 0.06];
      assert [0.05, 0.06][1..] == [0.06];
    }
  }

  /** The Sharpe ratio (mean / std) * annualisation; undefined when the
      standard deviation is zero or either moment is undefined. The
      annualisation factor (the square root of 12) is given. */
  function SharpeRatio(meanReturn: Option<real>, stdReturn: Option<real>, annualisation: real): (s: Option<real>)
    ensures stdReturn == Some(0.0) ==> s.None?
    ensures s.Some? <==> meanReturn.Some? && stdReturn.Some? && stdReturn.value != 0.0
    ensures s.Some? ==> s.value == Divide(meanReturn.value, stdReturn.value) * annualisation
  {
    if stdReturn == Some(0.0) then None
    else if meanReturn.Some? && stdReturn.Some? then
      Some(Divide(meanReturn.value, stdReturn.value) * annualisation)
    else None
  }

  /** Scaling the mean by k, at a fixed standard deviation, scales the ratio by k. */
  lemma SharpeLinearInMean(k: real, m: real, sd: real, annualisation: real)
    requires sd != 0.0
    ensures SharpeRatio(Some(k * m), Some(sd), annualisation).Some?
    ensures SharpeRatio(Some(k * m), Some(sd), annualisation).value ==
      k * SharpeRatio(Some(m), Some(sd), annualisation).value
  {
    var before := SharpeRatio(Some(m), Some(sd), annualisation);
    var after := SharpeRatio(Some(k * m), Some(sd), annualisation);
    var q := Divide(m, sd);
    assert before.value == q * annualisation;
    assert after.value == Divide(k * m, sd) * annualisation;
    assert Divide(k * m, sd) == k * q;
    assert (k * q) * annualisation == k * (q * annualisation);
    assert after.value == k * before.value;
  }

  /** Scaling all returns by k > 0 scales mean and deviation alike and leaves
      the ratio unchanged. */
  lemma SharpeScaleInvariant(k: real, m: real, sd: real, annualisation: real)
    requires k > 0.0 && sd != 0.0
    ensures SharpeRatio(Some(k * m), Some(k * sd), annualisation) == SharpeRatio(Some(m), Some(sd), annualisation)
  {
    assert k * sd != 0.0;
    var before := SharpeRatio(Some(m), Some(sd), annualisation);
    var after := SharpeRatio(Some(k * m), Some(k * sd), annualisation);
    assert Divide(k * m, k * sd) == Divide(m, sd);
    assert after.value == before.value;
    assert after == Some(after.value) && before == Some(before.value);
  }
}
