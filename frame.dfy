/** The data frame the statistics run on, and the column reductions
    (sum, mean, dropping missing cells) that the statistics are built from. */
module Frame {
  import opened Wrappers

  /** A numeric column; `None` is a missing (NaN) cell. */
  type Column = seq<Option<real>>

  /** A monthly panel: one date per row (dates are day numbers), named numeric
      columns of equal length, and the regime label of every row. */
  datatype Panel = Panel(dates: seq<int>, columns: map<string, Column>, regime: seq<Option<string>>)
  {
    /** Every column, and the regime column, has one cell per row. */
    predicate Valid()
    {
      && |regime| == |dates|
      && forall c :: c in columns ==> |columns[c]| == |dates|
    }
  }

  /** A column looked up by a name the frame does not have. */
  datatype KeyError = KeyError(key: string)

  function Sum(s: seq<real>): real
  {
    if s == [] then 0.0 else s[0] + Sum(s[1..])
  }

  function Mean(s: seq<real>): real
    requires |s| > 0
  {
    Divide(Sum(s), |s| as real)
  }

  /** Real division, kept behind a name so that the solver only expands it
      where a proof needs its value. */
  function Divide(a: real, b: real): real
    requires b != 0.0
  {
    a / b
  }

  function Abs(x: real): real
  {
    if x < 0.0 then -x else x
  }

  function Min(a: int, b: int): int
  {
    if a < b then a else b
  }

  /** The values of the present cells, in row order. */
  function DropMissing(s: Column): (r: seq<real>)
    ensures |r| <= |s|
  {
    if s == [] then []
    else
      match s[0]
      case Some(x) => [x] + DropMissing(s[1..])
      case None => DropMissing(s[1..])
  }

  /** Dropping keeps exactly the present values and removes nothing from a
      column without missing cells and everything from one with no values. */
  lemma {:induction false} DropMissingKeepsPresentValues(s: Column)
    ensures forall x :: x in DropMissing(s) <==> Some(x) in s
    ensures |DropMissing(s)| == |s| <==> forall i | 0 <= i < |s| :: s[i].Some?
    ensures DropMissing(s) == [] <==> forall i | 0 <= i < |s| :: s[i].None?
  {
    if s != [] {
      DropMissingKeepsPresentValues(s[1..]);
      assert forall i | 1 <= i < |s| :: s[i] == s[1..][i - 1];
      assert s == [s[0]] + s[1..];
    }
  }

  /** Every present value is kept as often as it occurs, so the result has one
      entry per present cell. */
  lemma {:induction false} DropMissingCounts(s: Column)
    ensures forall x :: multiset(DropMissing(s))[x] == multiset(s)[Some(x)]
    ensures |DropMissing(s)| == |s| - multiset(s)[None]
  {
    if s != [] {
      var rest := DropMissing(s[1..]);
      DropMissingCounts(s[1..]);
      assert s == [s[0]] + s[1..];
      assert multiset(s) == multiset{s[0]} + multiset(s[1..]);
      if s[0].Some? {
        assert DropMissing(s) == [s[0].value] + rest;
        assert multiset(DropMissing(s)) == multiset{s[0].value} + multiset(rest);
      } else {
        assert DropMissing(s) == rest;
      }
    }
  }

  /** Dropping works cell by cell in row order: the values kept from two
      consecutive stretches of rows are those of the first, then those of the
      second. */
  lemma {:induction false} DropMissingOfConcat(a: Column, b: Column)
    ensures DropMissing(a + b) == DropMissing(a) + DropMissing(b)
  {
    if a == [] {
      assert a + b == b;
    } else {
      assert (a + b)[0] == a[0];
      assert (a + b)[1..] == a[1..] + b;
      DropMissingOfConcat(a[1..], b);
      match a[0]
      case Some(x) =>
        assert DropMissing(a) == [x] + DropMissing(a[1..]);
      case None =>
    }
  }

  /** A column without missing cells loses nothing. */
  lemma {:induction false} DropMissingOfFullColumn(s: Column)
    requires forall i | 0 <= i < |s| :: s[i].Some?
    ensures DropMissing(s) == seq(|s|, i requires 0 <= i < |s| => s[i].value)
  {
    if s != [] {
      DropMissingOfFullColumn(s[1..]);
    }
  }

  /** The first name of `names`, in order, that is not a key of `keys`. */
  function FirstMissing(names: seq<string>, keys: set<string>): (r: Option<string>)
    ensures r.None? <==> forall i | 0 <= i < |names| :: names[i] in keys
    ensures r.Some? ==> exists k | 0 <= k < |names| ::
      && names[k] == r.value && r.value !in keys
      && forall i | 0 <= i < k :: names[i] in keys
  {
    if names == [] then None
    else if names[0] !in keys then Some(names[0])
    else
      var r := FirstMissing(names[1..], keys);
      assert forall i | 1 <= i < |names| :: names[i] == names[1..][i - 1];
      if r.Some? then
        ghost var k :| 0 <= k < |names[1..]| && names[1..][k] == r.value && r.value !in keys
                       && forall i | 0 <= i < k :: names[1..][i] in keys;
        assert names[k + 1] == r.value;
        r
      else r
  }

  /** The first absent name is the one after a run of present names. */
  lemma FirstMissingAt(names: seq<string>, keys: set<string>, i: nat)
    requires i < |names| && names[i] !in keys
    requires forall m | 0 <= m < i :: names[m] in keys
    ensures FirstMissing(names, keys) == Some(names[i])
  {
    var r := FirstMissing(names, keys);
    var k :| 0 <= k < |names| && names[k] == r.value && r.value !in keys
             && forall m | 0 <= m < k :: names[m] in keys;
    assert k == i;
  }

  /** Sum of a constant sequence. */
  lemma {:induction false} SumOfConstant(s: seq<real>, c: real)
    requires forall i | 0 <= i < |s| :: s[i] == c
    ensures Sum(s) == (|s| as real) * c
  {
    if s != [] {
      SumOfConstant(s[1..], c);
    }
  }

  lemma {:induction false} SumNonNegative(s: seq<real>)
    requires forall i | 0 <= i < |s| :: s[i] >= 0.0
    ensures Sum(s) >= 0.0
  {
    if s != [] {
      SumNonNegative(s[1..]);
    }
  }

  /** The mean of a constant sample is that constant. */
  lemma MeanOfConstant(s: seq<real>, c: real)
    requires |s| > 0
    requires forall i | 0 <= i < |s| :: s[i] == c
    ensures Mean(s) == c
  {
    SumOfConstant(s, c);
  }
}
