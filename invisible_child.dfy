/**
 * invisible_child.py: districts where fewer children update their biometrics
 * (`bio_age_5_17`) than were enrolled as infants (`age_0_5`). Both counts are
 * summed per (state, district) pair; the gap is their difference.
 */
module InvisibleChild {
  import opened Tables

  /** Number of districts the chart shows. */
  const TopCount: nat := 10

  /** A merged district: its two totals and `missing_children_gap`. */
  datatype GapRow = GapRow(key: (State, District), infants: nat, childUpdates: nat, gap: int)

  function GapKey(x: GapRow): (State, District)
  {
    x.key
  }

  function GapScore(x: GapRow): real
  {
    x.gap as real
  }

  /** `merged_df['missing_children_gap'] > 0` */
  predicate PositiveGap(x: GapRow)
  {
    x.gap > 0
  }

  /** Adds the gap column to the joined table, row by row. */
  function WithGap(j: seq<((State, District), (nat, nat))>): (rs: seq<GapRow>)
    ensures |rs| == |j|
    ensures forall i :: 0 <= i < |j| ==> rs[i] == GapRow(j[i].0, j[i].1.0, j[i].1.1, j[i].1.0 as int - j[i].1.1 as int)
  {
    seq(|j|, i requires 0 <= i < |j| => GapRow(j[i].0, j[i].1.0, j[i].1.1, j[i].1.0 as int - j[i].1.1 as int))
  }

  /** x is the row of a pair present in both tables, with its totals and their difference. */
  ghost predicate GapRowOf(enrolments: seq<((State, District), nat)>, updates: seq<((State, District), nat)>, x: GapRow)
  {
    && x.key in Keys(enrolments) && x.key in Keys(updates)
    && x.infants == SumFor(enrolments, x.key)
    && x.childUpdates == SumFor(updates, x.key)
    && x.gap == x.infants as int - x.childUpdates as int
  }

  /**
   * Both tables grouped per (state, district) and inner-joined, with the gap
   * column: exactly one row per pair present in both tables.
   */
  function GapTable(enrolments: seq<((State, District), nat)>, updates: seq<((State, District), nat)>): (rs: seq<GapRow>)
    ensures forall x :: x in rs <==> GapRowOf(enrolments, updates, x)
    ensures DistinctOn(rs, GapKey)
    ensures |rs| == |Keys(enrolments) * Keys(updates)|
  {
    GapTableMembers(enrolments, updates);
    GapTableShape(enrolments, updates);
    WithGap(JoinTotals(enrolments, updates))
  }

  lemma GapTableMembers(enrolments: seq<((State, District), nat)>, updates: seq<((State, District), nat)>)
    ensures forall x :: x in WithGap(JoinTotals(enrolments, updates)) <==> GapRowOf(enrolments, updates, x)
  {
    forall x ensures x in WithGap(JoinTotals(enrolments, updates)) <==> GapRowOf(enrolments, updates, x) {
      GapTableMemberAt(enrolments, updates, x);
    }
  }

  lemma GapTableMemberAt(enrolments: seq<((State, District), nat)>, updates: seq<((State, District), nat)>, x: GapRow)
    ensures x in WithGap(JoinTotals(enrolments, updates)) <==> GapRowOf(enrolments, updates, x)
  {
    if x in WithGap(JoinTotals(enrolments, updates)) {
      GapRowSound(enrolments, updates, x);
    }
    if GapRowOf(enrolments, updates, x) {
      GapRowComplete(enrolments, updates, x);
    }
  }

  lemma GapRowSound(enrolments: seq<((State, District), nat)>, updates: seq<((State, District), nat)>, x: GapRow)
    requires x in WithGap(JoinTotals(enrolments, updates))
    ensures GapRowOf(enrolments, updates, x)
  {
    var j := JoinTotals(enrolments, updates);
    var rs := WithGap(j);
    var i :| 0 <= i < |rs| && rs[i] == x;
    assert j[i].0 in Keys(enrolments) && j[i].0 in Keys(updates);
  }

  lemma GapRowComplete(enrolments: seq<((State, District), nat)>, updates: seq<((State, District), nat)>, x: GapRow)
    requires GapRowOf(enrolments, updates, x)
    ensures x in WithGap(JoinTotals(enrolments, updates))
  {
    var j := JoinTotals(enrolments, updates);
    var rs := WithGap(j);
    assert (x.key, (x.infants, x.childUpdates)) in j;
    var i :| 0 <= i < |j| && j[i] == (x.key, (x.infants, x.childUpdates));
    assert rs[i] == x;
  }

  lemma GapTableShape(enrolments: seq<((State, District), nat)>, updates: seq<((State, District), nat)>)
    ensures DistinctOn(WithGap(JoinTotals(enrolments, updates)), GapKey)
    ensures |WithGap(JoinTotals(enrolments, updates))| == |Keys(enrolments) * Keys(updates)|
  {
    var j := JoinTotals(enrolments, updates);
    DistinctKeysIndices(j);
    DistinctKeysCount(j);
  }

  /**
   * The red-flag districts: among the pairs with a positive gap, the 10 with
   * the largest gap, largest first.
   */
  function RedFlags(enrolments: seq<((State, District), nat)>, updates: seq<((State, District), nat)>): (top: seq<GapRow>)
    ensures |top| <= TopCount
    ensures forall x :: x in top ==> GapRowOf(enrolments, updates, x) && x.gap > 0
    ensures DistinctOn(top, GapKey)
    ensures NonIncreasing(top, GapScore)
    ensures forall x, i :: GapRowOf(enrolments, updates, x) && x.gap > 0 && x !in top && 0 <= i < |top| ==> x.gap <= top[i].gap
    ensures |top| < TopCount ==> forall x :: GapRowOf(enrolments, updates, x) && x.gap > 0 ==> x in top
  {
    var merged := GapTable(enrolments, updates);
    var top := TopWhere(merged, PositiveGap, TopCount, GapScore);
    RedFlagsMembers(enrolments, updates, top);
    RedFlagsExcluded(enrolments, updates, top);
    RedFlagsComplete(enrolments, updates, top);
    top
  }

  lemma RedFlagsMembers(enrolments: seq<((State, District), nat)>, updates: seq<((State, District), nat)>, top: seq<GapRow>)
    requires top == TopWhere(GapTable(enrolments, updates), PositiveGap, TopCount, GapScore)
    ensures forall x :: x in top ==> GapRowOf(enrolments, updates, x) && x.gap > 0
    ensures DistinctOn(top, GapKey)
  {
    var merged := GapTable(enrolments, updates);
    forall x | x in top ensures GapRowOf(enrolments, updates, x) && x.gap > 0 {
      assert x in merged && PositiveGap(x);
    }
    SubMultisetDistinctOn(top, merged, GapKey);
  }

  lemma RedFlagsExcluded(enrolments: seq<((State, District), nat)>, updates: seq<((State, District), nat)>, top: seq<GapRow>)
    requires top == TopWhere(GapTable(enrolments, updates), PositiveGap, TopCount, GapScore)
    ensures forall x, i :: GapRowOf(enrolments, updates, x) && x.gap > 0 && x !in top && 0 <= i < |top| ==> x.gap <= top[i].gap
  {
    forall x | GapRowOf(enrolments, updates, x) && x.gap > 0 && x !in top {
      RedFlagsExcludedAt(enrolments, updates, top, x);
    }
  }

  lemma RedFlagsExcludedAt(enrolments: seq<((State, District), nat)>, updates: seq<((State, District), nat)>, top: seq<GapRow>, x: GapRow)
    requires top == TopWhere(GapTable(enrolments, updates), PositiveGap, TopCount, GapScore)
    requires GapRowOf(enrolments, updates, x) && x.gap > 0 && x !in top
    ensures forall i :: 0 <= i < |top| ==> x.gap <= top[i].gap
  {
    var f := Filter(GapTable(enrolments, updates), PositiveGap);
    assert x in f;
    TopNExcluded(f, TopCount, GapScore, x);
  }

  lemma RedFlagsComplete(enrolments: seq<((State, District), nat)>, updates: seq<((State, District), nat)>, top: seq<GapRow>)
    requires top == TopWhere(GapTable(enrolments, updates), PositiveGap, TopCount, GapScore)
    ensures |top| < TopCount ==> forall x :: GapRowOf(enrolments, updates, x) && x.gap > 0 ==> x in top
  {
    if |top| < TopCount {
      forall x | GapRowOf(enrolments, updates, x) && x.gap > 0 ensures x in top {
        assert x in GapTable(enrolments, updates) && PositiveGap(x);
      }
    }
  }

  /**
   * The gap is a plain difference and can be negative; a district with more
   * updates than enrolments is not a red flag.
   */
  lemma GapMayBeNegative()
    ensures GapRow(("Assam", "Dhubri"), 2, 5, -3) in GapTable([(("Assam", "Dhubri"), 2)], [(("Assam", "Dhubri"), 5)])
    ensures RedFlags([(("Assam", "Dhubri"), 2)], [(("Assam", "Dhubri"), 5)]) == []
  {
    var e := [(("Assam", "Dhubri"), 2)];
    var u := [(("Assam", "Dhubri"), 5)];
    KeysCons(e);
    KeysCons(u);
    assert GapRowOf(e, u, GapRow(("Assam", "Dhubri"), 2, 5, -3));
  }

  /** The same district name in two states gives two rows with separate totals. */
  lemma StatesKeptApart()
    ensures var e := [(("Bihar", "Aurangabad"), 10), (("Maharashtra", "Aurangabad"), 1)];
      var u := [(("Bihar", "Aurangabad"), 4), (("Maharashtra", "Aurangabad"), 6)];
      && GapRow(("Bihar", "Aurangabad"), 10, 4, 6) in GapTable(e, u)
      && GapRow(("Maharashtra", "Aurangabad"), 1, 6, -5) in GapTable(e, u)
      && GapRow(("Maharashtra", "Aurangabad"), 1, 6, -5) !in RedFlags(e, u)
  {
    var e := [(("Bihar", "Aurangabad"), 10), (("Maharashtra", "Aurangabad"), 1)];
    var u := [(("Bihar", "Aurangabad"), 4), (("Maharashtra", "Aurangabad"), 6)];
    assert e[0].0 in Keys(e) && e[1].0 in Keys(e);
    assert u[0].0 in Keys(u) && u[1].0 in Keys(u);
    assert GapRowOf(e, u, GapRow(("Bihar", "Aurangabad"), 10, 4, 6));
    assert GapRowOf(e, u, GapRow(("Maharashtra", "Aurangabad"), 1, 6, -5));
  }
}
