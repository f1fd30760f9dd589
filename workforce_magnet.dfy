/**
 * workforce_magnet.py: labour-migration hubs, ranked by the migration score
 * `updates / (enrolments + 1)` among PIN codes with more than 1000 adult
 * demographic updates.
 */
module WorkforceMagnet {
  import opened Tables

  /** Number of PIN codes the chart shows. */
  const TopCount: nat := 10

  /** Minimum update volume, exclusive, for a PIN code to be ranked. */
  const MinUpdates: nat := 1000

  /** `merged['demo_age_17_'] > 1000` */
  predicate Significant(x: RatioRow<Pin>)
  {
    x.numerator > MinUpdates
  }

  /**
   * Both tables grouped per PIN code and inner-joined; among the PIN codes
   * with more than 1000 updates, the 10 with the highest score, highest first.
   */
  function TopMagnets(updates: seq<(Pin, nat)>, enrolments: seq<(Pin, nat)>): (top: seq<RatioRow<Pin>>)
    ensures |top| <= TopCount
    ensures forall x :: x in top ==> RatioRowOf(updates, enrolments, x) && x.numerator > MinUpdates
    ensures DistinctOn(top, KeyOf)
    ensures NonIncreasing(top, RatioOf)
    ensures forall x, i :: RatioRowOf(updates, enrolments, x) && x.numerator > MinUpdates && x !in top && 0 <= i < |top| ==>
      x.ratio <= top[i].ratio
    ensures |top| < TopCount ==> forall x :: RatioRowOf(updates, enrolments, x) && x.numerator > MinUpdates ==> x in top
  {
    var merged := RatioJoin(updates, enrolments);
    var top := TopWhere(merged, Significant, TopCount, RatioOf);
    SignificantExcluded(updates, enrolments, top);
    SignificantComplete(updates, enrolments, top);
    SubMultisetDistinctOn(top, merged, KeyOf);
    top
  }

  lemma SignificantExcluded(updates: seq<(Pin, nat)>, enrolments: seq<(Pin, nat)>, top: seq<RatioRow<Pin>>)
    requires top == TopWhere(RatioJoin(updates, enrolments), Significant, TopCount, RatioOf)
    ensures forall x, i :: RatioRowOf(updates, enrolments, x) && x.numerator > MinUpdates && x !in top && 0 <= i < |top| ==>
      x.ratio <= top[i].ratio
  {
    forall x | RatioRowOf(updates, enrolments, x) && x.numerator > MinUpdates && x !in top {
      SignificantExcludedAt(updates, enrolments, top, x);
    }
  }

  lemma SignificantExcludedAt(updates: seq<(Pin, nat)>, enrolments: seq<(Pin, nat)>, top: seq<RatioRow<Pin>>, x: RatioRow<Pin>)
    requires top == TopWhere(RatioJoin(updates, enrolments), Significant, TopCount, RatioOf)
    requires RatioRowOf(updates, enrolments, x) && x.numerator > MinUpdates && x !in top
    ensures forall i :: 0 <= i < |top| ==> x.ratio <= top[i].ratio
  {
    var f := Filter(RatioJoin(updates, enrolments), Significant);
    assert x in f;
    TopNExcluded(f, TopCount, RatioOf, x);
  }

  lemma SignificantComplete(updates: seq<(Pin, nat)>, enrolments: seq<(Pin, nat)>, top: seq<RatioRow<Pin>>)
    requires top == TopWhere(RatioJoin(updates, enrolments), Significant, TopCount, RatioOf)
    ensures |top| < TopCount ==> forall x :: RatioRowOf(updates, enrolments, x) && x.numerator > MinUpdates ==> x in top
  {
    if |top| < TopCount {
      forall x | RatioRowOf(updates, enrolments, x) && x.numerator > MinUpdates ensures x in top {
        assert x in RatioJoin(updates, enrolments) && Significant(x);
      }
    }
  }
}
