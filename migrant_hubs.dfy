/**
 * migrant_hubs.py: PIN codes with many adult demographic updates
 * (`demo_age_17_`) but few new adult enrolments (`age_18_greater`), ranked by
 * the migration ratio `updates / (enrolments + 1)`.
 */
module MigrantHubs {
  import opened Tables

  /** Number of PIN codes the chart shows. */
  const TopCount: nat := 10

  /**
   * Both tables grouped per PIN code and inner-joined; the 10 PIN codes with
   * the highest migration ratio, highest first. Each row holds a PIN code
   * present in both tables, its two totals and their ratio.
   */
  function TopHubs(updates: seq<(Pin, nat)>, enrolments: seq<(Pin, nat)>): (top: seq<RatioRow<Pin>>)
    ensures |top| == MinNat(TopCount, |Keys(updates) * Keys(enrolments)|)
    ensures forall x :: x in top ==> RatioRowOf(updates, enrolments, x)
    ensures DistinctOn(top, KeyOf)
    ensures NonIncreasing(top, RatioOf)
    ensures forall x, i :: RatioRowOf(updates, enrolments, x) && x !in top && 0 <= i < |top| ==> x.ratio <= top[i].ratio
  {
    var merged := RatioJoin(updates, enrolments);
    var top := TopN(merged, TopCount, RatioOf);
    TopNMembers(merged, TopCount, RatioOf);
    HubsExcluded(updates, enrolments, top);
    SubMultisetDistinctOn(top, merged, KeyOf);
    top
  }

  lemma HubsExcluded(updates: seq<(Pin, nat)>, enrolments: seq<(Pin, nat)>, top: seq<RatioRow<Pin>>)
    requires top == TopN(RatioJoin(updates, enrolments), TopCount, RatioOf)
    ensures forall x, i :: RatioRowOf(updates, enrolments, x) && x !in top && 0 <= i < |top| ==> x.ratio <= top[i].ratio
  {
    forall x, i | RatioRowOf(updates, enrolments, x) && x !in top && 0 <= i < |top| ensures x.ratio <= top[i].ratio {
      TopNExcluded(RatioJoin(updates, enrolments), TopCount, RatioOf, x);
    }
  }
}
