/**
 * phantom_cluster.py: months in which a PIN's adult demographic updates
 * (`demo_age_17_`) jump far above that PIN's own monthly average. Updates are
 * summed per (pincode, month); each PIN's baseline is the mean of its monthly
 * totals; a month is a spike when the baseline exceeds 50 and the month's
 * total exceeds five times the baseline. The five largest spikes are
 * reported and the PIN of the largest one is charted month by month.
 */
module PhantomCluster {
  import opened Tables
  import opened Options

  /** `.head(5)` */
  const TopCount: nat := 5

  /** `avg_updates > 50` */
  const MinBaseline: real := 50.0

  /** `demo_age_17_ > avg_updates * 5` */
  const SpikeFactor: real := 5.0

  /** A row of `analysis_df`: one PIN-month, its total and its PIN's baseline. */
  datatype Spike = Spike(pincode: Pin, month: Month, updates: nat, average: real)

  function SpikeKey(x: Spike): (Pin, Month)
  {
    (x.pincode, x.month)
  }

  function Updates(x: Spike): real
  {
    x.updates as real
  }

  /** The keys (pincode, month) that belong to PIN p. */
  function OfPin(p: Pin): ((Pin, Month)) -> bool
  {
    (k: (Pin, Month)) => k.0 == p
  }

  /** Sum of PIN p's monthly totals. */
  function PinTotal(monthly: seq<((Pin, Month), nat)>, p: Pin): nat
  {
    SumWhere(monthly, OfPin(p))
  }

  /** Number of PIN p's monthly rows. */
  function PinMonths(monthly: seq<((Pin, Month), nat)>, p: Pin): nat
  {
    CountWhere(monthly, OfPin(p))
  }

  /** `groupby('pincode').mean()`; 0 for a PIN without rows, which never occurs in the merge. */
  function Baseline(monthly: seq<((Pin, Month), nat)>, p: Pin): real
  {
    if PinMonths(monthly, p) == 0 then 0.0 else PinTotal(monthly, p) as real / PinMonths(monthly, p) as real
  }

  /** Both conditions of the trigger. */
  predicate Flagged(x: Spike)
  {
    x.average > MinBaseline && x.updates as real > x.average * SpikeFactor
  }

  /** `analysis_df`: every monthly row merged with its PIN's baseline. */
  function Analysis(monthly: seq<((Pin, Month), nat)>): (a: seq<Spike>)
    ensures |a| == |monthly|
    ensures forall i :: 0 <= i < |monthly| ==> a[i] == Spike(monthly[i].0.0, monthly[i].0.1, monthly[i].1, Baseline(monthly, monthly[i].0.0))
  {
    seq(|monthly|, i requires 0 <= i < |monthly| => Spike(monthly[i].0.0, monthly[i].0.1, monthly[i].1, Baseline(monthly, monthly[i].0.0)))
  }

  /**
   * x is the analysis row of a (pincode, month) present in the raw rows: that
   * month's total and the mean of the PIN's monthly totals.
   */
  ghost predicate SpikeOf(rows: seq<((Pin, Month), nat)>, x: Spike)
  {
    && (x.pincode, x.month) in Keys(rows)
    && x.updates == SumFor(rows, (x.pincode, x.month))
    && x.average == Baseline(GroupSum(rows), x.pincode)
  }

  /** The analysis table has exactly one row per (pincode, month) of the input. */
  function AnalysisTable(rows: seq<((Pin, Month), nat)>): (a: seq<Spike>)
    ensures forall x :: x in a <==> SpikeOf(rows, x)
    ensures DistinctOn(a, SpikeKey)
    ensures |a| == |Keys(rows)|
  {
    AnalysisMembers(rows);
    AnalysisShape(rows);
    Analysis(GroupSum(rows))
  }

  lemma AnalysisMembers(rows: seq<((Pin, Month), nat)>)
    ensures forall x :: x in Analysis(GroupSum(rows)) <==> SpikeOf(rows, x)
  {
    var g := GroupSum(rows);
    var a := Analysis(g);
    GroupSumRows(rows);
    forall x ensures x in a <==> SpikeOf(rows, x) {
      if x in a {
        var i :| 0 <= i < |a| && a[i] == x;
        assert g[i] in g;
        TotalsRow(rows, g[i].0, g[i].1);
      }
      if SpikeOf(rows, x) {
        var k := (x.pincode, x.month);
        assert (k, SumFor(rows, k)) in g;
        var i :| 0 <= i < |g| && g[i] == (k, SumFor(rows, k));
        assert a[i] == x;
      }
    }
  }

  lemma AnalysisShape(rows: seq<((Pin, Month), nat)>)
    ensures DistinctOn(Analysis(GroupSum(rows)), SpikeKey)
    ensures |Analysis(GroupSum(rows))| == |Keys(rows)|
  {
    var g := GroupSum(rows);
    DistinctKeysIndices(g);
    DistinctKeysCount(g);
    var a := Analysis(g);
    forall i, k | 0 <= i < k < |a| ensures SpikeKey(a[i]) != SpikeKey(a[k]) {
      assert SpikeKey(a[i]) == g[i].0 && SpikeKey(a[k]) == g[k].0;
    }
  }

  /** The (pincode, month) keys of PIN p in the raw rows. */
  ghost function MonthsOf(rows: seq<((Pin, Month), nat)>, p: Pin): set<(Pin, Month)>
  {
    set k | k in Keys(rows) && k.0 == p
  }

  /**
   * The baseline is the mean over the PIN's distinct months of the raw
   * updates: the PIN's raw total over its number of months.
   */
  lemma BaselineIsMean(rows: seq<((Pin, Month), nat)>, p: Pin)
    ensures PinTotal(GroupSum(rows), p) == SumWhere(rows, OfPin(p))
    ensures PinMonths(GroupSum(rows), p) == |MonthsOf(rows, p)|
  {
    GroupSumWhere(rows, OfPin(p));
    PinMonthsKeys(rows, p);
  }

  lemma PinMonthsKeys(rows: seq<((Pin, Month), nat)>, p: Pin)
    ensures PinMonths(GroupSum(rows), p) == |MonthsOf(rows, p)|
  {
    var g := GroupSum(rows);
    CountWhereKeys(g, OfPin(p));
    assert KeysWhere(Keys(g), OfPin(p)) == MonthsOf(rows, p);
  }

  /**
   * A flagged month exceeds five times the mean of months that include itself,
   * so its PIN has at least six months of data.
   */
  lemma FlaggedNeedsSixMonths(rows: seq<((Pin, Month), nat)>, x: Spike)
    requires SpikeOf(rows, x) && Flagged(x)
    ensures |MonthsOf(rows, x.pincode)| >= 6
  {
    var g := GroupSum(rows);
    var p := x.pincode;
    GroupSumRows(rows);
    assert ((p, x.month), x.updates) in g;
    RowInWhere(g, OfPin(p), (p, x.month), x.updates);
    PinMonthsKeys(rows, p);
    var s := PinTotal(g, p) as real;
    var c := PinMonths(g, p) as real;
    SixMonths(x.average, x.updates as real, s, c);
  }

  /** The arithmetic step: a > 50, u > 5a, u <= s and a = s / c give c > 5. */
  lemma SixMonths(a: real, u: real, s: real, c: real)
    requires c >= 1.0 && a == s / c && a > MinBaseline && u > a * SpikeFactor && u <= s
    ensures c > 5.0
  {
    assert s > a * 5.0;
    assert a * c == s;
    assert a * (c - 5.0) == a * c - a * 5.0;
    if c <= 5.0 {
      NonPositiveProduct(a, c - 5.0);
    }
  }

  lemma NonPositiveProduct(a: real, d: real)
    requires a > 0.0 && d <= 0.0
    ensures a * d <= 0.0
  {
  }

  /** A PIN with a single month is its own baseline and is never flagged. */
  lemma SingleMonthNeverFlagged(rows: seq<((Pin, Month), nat)>, x: Spike)
    requires SpikeOf(rows, x)
    requires |MonthsOf(rows, x.pincode)| < 6
    ensures !Flagged(x)
  {
    if Flagged(x) {
      FlaggedNeedsSixMonths(rows, x);
    }
  }

  /**
   * `top_phantom_clusters`: the five flagged months with the most updates,
   * most first.
   */
  function TopClusters(rows: seq<((Pin, Month), nat)>): (top: seq<Spike>)
    ensures |top| <= TopCount
    ensures forall x :: x in top ==> SpikeOf(rows, x) && Flagged(x)
    ensures DistinctOn(top, SpikeKey)
    ensures NonIncreasing(top, Updates)
    ensures forall x, i :: SpikeOf(rows, x) && Flagged(x) && x !in top && 0 <= i < |top| ==> x.updates <= top[i].updates
    ensures |top| < TopCount ==> forall x :: SpikeOf(rows, x) && Flagged(x) ==> x in top
  {
    var a := AnalysisTable(rows);
    var top := TopWhere(a, Flagged, TopCount, Updates);
    ClustersExcluded(rows, top);
    ClustersComplete(rows, top);
    SubMultisetDistinctOn(top, a, SpikeKey);
    top
  }

  lemma ClustersExcluded(rows: seq<((Pin, Month), nat)>, top: seq<Spike>)
    requires top == TopWhere(AnalysisTable(rows), Flagged, TopCount, Updates)
    ensures forall x, i :: SpikeOf(rows, x) && Flagged(x) && x !in top && 0 <= i < |top| ==> x.updates <= top[i].updates
  {
    forall x | SpikeOf(rows, x) && Flagged(x) && x !in top {
      ClustersExcludedAt(rows, top, x);
    }
  }

  lemma ClustersExcludedAt(rows: seq<((Pin, Month), nat)>, top: seq<Spike>, x: Spike)
    requires top == TopWhere(AnalysisTable(rows), Flagged, TopCount, Updates)
    requires SpikeOf(rows, x) && Flagged(x) && x !in top
    ensures forall i :: 0 <= i < |top| ==> x.updates <= top[i].updates
  {
    var f := Filter(AnalysisTable(rows), Flagged);
    assert x in f;
    TopNExcluded(f, TopCount, Updates, x);
  }

  lemma ClustersComplete(rows: seq<((Pin, Month), nat)>, top: seq<Spike>)
    requires top == TopWhere(AnalysisTable(rows), Flagged, TopCount, Updates)
    ensures |top| < TopCount ==> forall x :: SpikeOf(rows, x) && Flagged(x) ==> x in top
  {
    if |top| < TopCount {
      forall x | SpikeOf(rows, x) && Flagged(x) ensures x in top {
        assert x in AnalysisTable(rows);
      }
    }
  }

  /** x is a flagged month with at least as many updates as every flagged month. */
  ghost predicate WorstSpike(rows: seq<((Pin, Month), nat)>, x: Spike)
  {
    SpikeOf(rows, x) && Flagged(x) && forall y :: SpikeOf(rows, y) && Flagged(y) ==> y.updates <= x.updates
  }

  /**
   * `target_pin`: none when no month is flagged, otherwise the PIN of a
   * flagged month with the most updates.
   */
  function TargetPin(rows: seq<((Pin, Month), nat)>): (r: Option<Pin>)
    ensures r.None? <==> forall x :: SpikeOf(rows, x) ==> !Flagged(x)
    ensures r.Some? ==> exists x :: WorstSpike(rows, x) && x.pincode == r.value
  {
    var top := TopClusters(rows);
    if top == [] then
      None
    else
      TargetIsWorst(rows);
      Some(top[0].pincode)
  }

  lemma TargetIsWorst(rows: seq<((Pin, Month), nat)>)
    requires TopClusters(rows) != []
    ensures WorstSpike(rows, TopClusters(rows)[0])
  {
    var top := TopClusters(rows);
    TopWhereHead(AnalysisTable(rows), Flagged, TopCount, Updates);
    forall y | SpikeOf(rows, y) && Flagged(y) ensures y.updates <= top[0].updates {
      assert y in AnalysisTable(rows);
    }
  }

  /** The monthly rows of PIN p. */
  function RowOfPin(p: Pin): (((Pin, Month), nat)) -> bool
  {
    (row: ((Pin, Month), nat)) => row.0.0 == p
  }

  /**
   * `pin_data`: the monthly totals of PIN p, one row per month of that PIN,
   * each holding the month's sum of raw updates.
   */
  function PinHistory(rows: seq<((Pin, Month), nat)>, p: Pin): (h: seq<((Pin, Month), nat)>)
    ensures forall i :: 0 <= i < |h| ==> h[i].0 in MonthsOf(rows, p) && h[i].1 == SumFor(rows, h[i].0)
    ensures forall k :: k in MonthsOf(rows, p) ==> (k, SumFor(rows, k)) in h
    ensures DistinctKeys(h)
  {
    var g := GroupSum(rows);
    var h := Filter(g, RowOfPin(p));
    HistoryRows(rows, p, h);
    assert multiset(h) <= multiset(g);
    SubMultisetDistinct(h, g);
    h
  }

  lemma HistoryRows(rows: seq<((Pin, Month), nat)>, p: Pin, h: seq<((Pin, Month), nat)>)
    requires h == Filter(GroupSum(rows), RowOfPin(p))
    ensures forall i :: 0 <= i < |h| ==> h[i].0 in MonthsOf(rows, p) && h[i].1 == SumFor(rows, h[i].0)
    ensures forall k :: k in MonthsOf(rows, p) ==> (k, SumFor(rows, k)) in h
  {
    var g := GroupSum(rows);
    forall i | 0 <= i < |h| ensures h[i].0 in MonthsOf(rows, p) && h[i].1 == SumFor(rows, h[i].0) {
      assert h[i] in g;
      TotalsRow(rows, h[i].0, h[i].1);
    }
    GroupSumRows(rows);
    forall k | k in MonthsOf(rows, p) ensures (k, SumFor(rows, k)) in h {
      assert (k, SumFor(rows, k)) in g;
    }
  }
}
