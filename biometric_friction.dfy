/**
 * biometric_friction.py: districts with the most voluntary adult biometric
 * updates (`bio_age_17_`), read as failing fingerprint sensors.
 */
module BiometricFriction {
  import opened Tables

  /** Number of districts the chart shows. */
  const TopCount: nat := 10

  /**
   * Adult biometric updates summed per (state, district) pair; the 10 pairs
   * with the largest totals, largest first. A district name that occurs in two
   * states is two keys.
   */
  function TopFriction(updates: seq<((State, District), nat)>): (top: seq<((State, District), nat)>)
    ensures |top| == MinNat(TopCount, |Keys(updates)|)
    ensures DistinctKeys(top)
    ensures forall key, total :: (key, total) in top ==> key in Keys(updates) && total == SumFor(updates, key)
    ensures NonIncreasing(top, Value)
    ensures forall key, i :: key in Keys(updates) && key !in Keys(top) && 0 <= i < |top| ==> SumFor(updates, key) <= top[i].1
  {
    RankTotals(updates, TopCount)
  }
}
