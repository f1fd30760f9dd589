/**
 * late.py: PIN codes with the most new adult enrolments (`age_18_greater`),
 * the "late adopter" zones that are only now coming online.
 */
module LateAdopters {
  import opened Tables

  /** Number of PIN codes the chart shows. */
  const TopCount: nat := 15

  /**
   * Adult new enrolments summed per PIN code; the 15 PIN codes with the
   * largest totals, largest first.
   */
  function TopLateAdopters(enrolments: seq<(Pin, nat)>): (top: seq<(Pin, nat)>)
    ensures |top| == MinNat(TopCount, |Keys(enrolments)|)
    ensures DistinctKeys(top)
    ensures forall pin, total :: (pin, total) in top ==> pin in Keys(enrolments) && total == SumFor(enrolments, pin)
    ensures NonIncreasing(top, Value)
    ensures forall pin, i :: pin in Keys(enrolments) && pin !in Keys(top) && 0 <= i < |top| ==> SumFor(enrolments, pin) <= top[i].1
  {
    RankTotals(enrolments, TopCount)
  }
}
