/**
 * school_pulse.py: the monthly trend of child biometric updates
 * (`bio_age_5_17`) in one state. Rows of other states are dropped, and the
 * remaining updates are summed per month.
 */
module SchoolPulse {
  import opened Tables

  /** The state the trend is drawn for. */
  const TrackedState: State := "Gujarat"

  /** A biometric row, with the date already reduced to its month. */
  datatype BioRow = BioRow(state: State, district: District, month: Month, childUpdates: nat)

  predicate InTrackedState(r: BioRow)
  {
    r.state == TrackedState
  }

  /** The (month, updates) columns of a table, row by row. */
  function MonthColumn(rows: seq<BioRow>): (c: seq<(Month, nat)>)
    ensures |c| == |rows|
    ensures forall i :: 0 <= i < |rows| ==> c[i] == (rows[i].month, rows[i].childUpdates)
  {
    seq(|rows|, i requires 0 <= i < |rows| => (rows[i].month, rows[i].childUpdates))
  }

  /** Updates of the tracked state in month m: the reference the trend is checked against. */
  function MonthSum(rows: seq<BioRow>, m: Month): nat
  {
    if rows == [] then 0
    else (if InTrackedState(rows[0]) && rows[0].month == m then rows[0].childUpdates else 0) + MonthSum(rows[1..], m)
  }

  /** All updates of the tracked state. */
  function StateSum(rows: seq<BioRow>): nat
  {
    if rows == [] then 0
    else (if InTrackedState(rows[0]) then rows[0].childUpdates else 0) + StateSum(rows[1..])
  }

  /**
   * `monthly_trend`: one row per month in which the tracked state has a row,
   * holding that month's total; the trend adds up to the state's total.
   */
  function MonthlyTrend(rows: seq<BioRow>): (t: seq<(Month, nat)>)
    ensures DistinctKeys(t)
    ensures forall m :: m in Keys(t) <==> exists r :: r in rows && InTrackedState(r) && r.month == m
    ensures forall m :: SumFor(t, m) == MonthSum(rows, m)
    ensures Total(t) == StateSum(rows)
  {
    var c := MonthColumn(Filter(rows, InTrackedState));
    TrendKeys(rows);
    forall m ensures SumFor(c, m) == MonthSum(rows, m) {
      TrendSum(rows, m);
    }
    TrendTotal(rows);
    GroupSum(c)
  }

  lemma MonthColumnConcat(a: seq<BioRow>, b: seq<BioRow>)
    ensures MonthColumn(a + b) == MonthColumn(a) + MonthColumn(b)
  {
    var l := MonthColumn(a + b);
    var r := MonthColumn(a) + MonthColumn(b);
    forall i | 0 <= i < |l| ensures l[i] == r[i] {
      if i >= |a| {
        assert (a + b)[i] == b[i - |a|];
      }
    }
  }

  /** Splits the filtered column into the first row's part and the rest. */
  lemma TrackedSplit(rows: seq<BioRow>)
    requires rows != []
    ensures MonthColumn(Filter(rows, InTrackedState))
      == MonthColumn(if InTrackedState(rows[0]) then [rows[0]] else []) + MonthColumn(Filter(rows[1..], InTrackedState))
  {
    MonthColumnConcat(if InTrackedState(rows[0]) then [rows[0]] else [], Filter(rows[1..], InTrackedState));
  }

  lemma {:induction false} TrendSum(rows: seq<BioRow>, m: Month)
    ensures SumFor(MonthColumn(Filter(rows, InTrackedState)), m) == MonthSum(rows, m)
  {
    if rows != [] {
      var head := MonthColumn(if InTrackedState(rows[0]) then [rows[0]] else []);
      var rest := MonthColumn(Filter(rows[1..], InTrackedState));
      TrackedSplit(rows);
      SumForConcat(head, rest, m);
      TrendSum(rows[1..], m);
    }
  }

  lemma {:induction false} TrendTotal(rows: seq<BioRow>)
    ensures Total(MonthColumn(Filter(rows, InTrackedState))) == StateSum(rows)
  {
    if rows != [] {
      var head := MonthColumn(if InTrackedState(rows[0]) then [rows[0]] else []);
      var rest := MonthColumn(Filter(rows[1..], InTrackedState));
      TrackedSplit(rows);
      TotalConcat(head, rest);
      TrendTotal(rows[1..]);
    }
  }

  lemma TrendKeys(rows: seq<BioRow>)
    ensures forall m :: m in Keys(MonthColumn(Filter(rows, InTrackedState))) <==> exists r :: r in rows && InTrackedState(r) && r.month == m
  {
    var c := MonthColumn(Filter(rows, InTrackedState));
    forall m ensures m in Keys(c) <==> exists r :: r in rows && InTrackedState(r) && r.month == m {
      if m in Keys(c) {
        TrendKeyHasRow(rows, m);
      }
      if exists r :: r in rows && InTrackedState(r) && r.month == m {
        var r :| r in rows && InTrackedState(r) && r.month == m;
        TrendRowHasKey(rows, r);
      }
    }
  }

  lemma TrendKeyHasRow(rows: seq<BioRow>, m: Month)
    requires m in Keys(MonthColumn(Filter(rows, InTrackedState)))
    ensures exists r :: r in rows && InTrackedState(r) && r.month == m
  {
    var f := Filter(rows, InTrackedState);
    var c := MonthColumn(f);
    var i :| 0 <= i < |c| && c[i].0 == m;
    assert f[i] in f;
  }

  lemma TrendRowHasKey(rows: seq<BioRow>, r: BioRow)
    requires r in rows && InTrackedState(r)
    ensures r.month in Keys(MonthColumn(Filter(rows, InTrackedState)))
  {
    var f := Filter(rows, InTrackedState);
    assert r in f;
    var i :| 0 <= i < |f| && f[i] == r;
    ColumnKeyAt(f, i);
  }

  lemma ColumnKeyAt(f: seq<BioRow>, i: int)
    requires 0 <= i < |f|
    ensures f[i].month in Keys(MonthColumn(f))
  {
    var c := MonthColumn(f);
    assert c[i].0 == f[i].month;
  }

  /** A row of another state leaves the trend exactly as it was. */
  lemma OtherStateIgnored(r: BioRow, rows: seq<BioRow>)
    requires !InTrackedState(r)
    ensures MonthlyTrend([r] + rows) == MonthlyTrend(rows)
  {
    var s := [r] + rows;
    assert s[1..] == rows;
    assert Filter(s, InTrackedState) == Filter(rows, InTrackedState);
  }

  /** Rows of the tracked state in one month add up; other states do not count. */
  lemma SameMonthAdds(x: BioRow, y: BioRow, z: BioRow)
    requires InTrackedState(x) && InTrackedState(z) && x.month == z.month && !InTrackedState(y)
    ensures SumFor(MonthlyTrend([x, y, z]), x.month) == x.childUpdates + z.childUpdates
  {
    assert [z][1..] == [];
    assert MonthSum([z], x.month) == z.childUpdates;
    assert [y, z][1..] == [z];
    assert MonthSum([y, z], x.month) == z.childUpdates;
    assert [x, y, z][1..] == [y, z];
  }
}
