/**
 * demogrphic_drift.py: worker and transient zones, where adult demographic
 * updates (`demo_age_17_`) outweigh child biometric updates (`bio_age_5_17`).
 * PIN codes are ranked by the drift score `adult / (child + 1)` among those
 * with more than 100 adult updates.
 */
module DemographicDrift {
  import opened Tables

  /** Number of PIN codes highlighted. */
  const TopCount: nat := 10

  /** Minimum adult activity, exclusive, for a PIN code to be ranked. */
  const MinActivity: nat := 100

  /** `merged_df['demo_age_17_'] > 100` */
  predicate Significant(x: RatioRow<Pin>)
  {
    x.numerator > MinActivity
  }

  /**
   * Adult and child totals grouped per PIN code and inner-joined; among the
   * PIN codes with more than 100 adult updates, the 10 with the highest drift
   * score, highest first.
   */
  function TransientZones(adult: seq<(Pin, nat)>, child: seq<(Pin, nat)>): (top: seq<RatioRow<Pin>>)
    ensures |top| <= TopCount
    ensures forall x :: x in top ==> RatioRowOf(adult, child, x) && x.numerator > MinActivity
    ensures DistinctOn(top, KeyOf)
    ensures NonIncreasing(top, RatioOf)
    ensures forall x, i :: RatioRowOf(adult, child, x) && x.numerator > MinActivity && x !in top && 0 <= i < |top| ==>
      x.ratio <= top[i].ratio
    ensures |top| < TopCount ==> forall x :: RatioRowOf(adult, child, x) && x.numerator > MinActivity ==> x in top
  {
    var merged := RatioJoin(adult, child);
    var top := TopWhere(merged, Significant, TopCount, RatioOf);
    SignificantExcluded(adult, child, top);
    SignificantComplete(adult, child, top);
    SubMultisetDistinctOn(top, merged, KeyOf);
    top
  }

  lemma SignificantExcluded(adult: seq<(Pin, nat)>, child: seq<(Pin, nat)>, top: seq<RatioRow<Pin>>)
    requires top == TopWhere(RatioJoin(adult, child), Significant, TopCount, RatioOf)
    ensures forall x, i :: RatioRowOf(adult, child, x) && x.numerator > MinActivity && x !in top && 0 <= i < |top| ==>
      x.ratio <= top[i].ratio
  {
    forall x | RatioRowOf(adult, child, x) && x.numerator > MinActivity && x !in top {
      SignificantExcludedAt(adult, child, top, x);
    }
  }

  lemma SignificantExcludedAt(adult: seq<(Pin, nat)>, child: seq<(Pin, nat)>, top: seq<RatioRow<Pin>>, x: RatioRow<Pin>)
    requires top == TopWhere(RatioJoin(adult, child), Significant, TopCount, RatioOf)
    requires RatioRowOf(adult, child, x) && x.numerator > MinActivity && x !in top
    ensures forall i :: 0 <= i < |top| ==> x.ratio <= top[i].ratio
  {
    var f := Filter(RatioJoin(adult, child), Significant);
    assert x in f;
    TopNExcluded(f, TopCount, RatioOf, x);
  }

  lemma SignificantComplete(adult: seq<(Pin, nat)>, child: seq<(Pin, nat)>, top: seq<RatioRow<Pin>>)
    requires top == TopWhere(RatioJoin(adult, child), Significant, TopCount, RatioOf)
    ensures |top| < TopCount ==> forall x :: RatioRowOf(adult, child, x) && x.numerator > MinActivity ==> x in top
  {
    if |top| < TopCount {
      forall x | RatioRowOf(adult, child, x) && x.numerator > MinActivity ensures x in top {
        assert x in RatioJoin(adult, child) && Significant(x);
      }
    }
  }
}
