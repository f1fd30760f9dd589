/**
 * neonatal_gap.py: PIN codes with many enrolled infants (`age_0_5`) and no
 * hospital. Infant enrolments are summed per PIN, left-joined with a hospital
 * table on `pincode` (a PIN missing from it counts 0 hospitals), and the PINs
 * with more than 500 infants and 0 hospitals are ranked by infants.
 */
module NeonatalGap {
  import opened Tables

  /** Number of risk zones the chart shows. */
  const TopCount: nat := 10

  /** `age_0_5 > 500` */
  const MinInfants: nat := 500

  /** A row of the merged table. */
  datatype Zone = Zone(pincode: Pin, infants: nat, hospitals: nat)

  function ZonePin(z: Zone): Pin
  {
    z.pincode
  }

  function Infants(z: Zone): real
  {
    z.infants as real
  }

  /** High infant count and zero hospitals. */
  predicate AtRisk(z: Zone)
  {
    z.infants > MinInfants && z.hospitals == 0
  }

  function ToZones(j: seq<(Pin, (nat, nat))>): (zs: seq<Zone>)
    ensures |zs| == |j|
    ensures forall i :: 0 <= i < |j| ==> zs[i] == Zone(j[i].0, j[i].1.0, j[i].1.1)
  {
    seq(|j|, i requires 0 <= i < |j| => Zone(j[i].0, j[i].1.0, j[i].1.1))
  }

  /**
   * z is a merged row: an enrolled PIN with its infant total, joined with one
   * of its hospital rows, or with 0 when the hospital table lacks the PIN.
   */
  ghost predicate ZoneOf(enrolments: seq<(Pin, nat)>, hospitals: seq<(Pin, nat)>, z: Zone)
  {
    && z.pincode in Keys(enrolments)
    && z.infants == SumFor(enrolments, z.pincode)
    && ((z.pincode, z.hospitals) in hospitals || (z.hospitals == 0 && z.pincode !in Keys(hospitals)))
  }

  /** Infants per PIN, left-joined with the hospital table and zero-filled. */
  function ZoneTable(enrolments: seq<(Pin, nat)>, hospitals: seq<(Pin, nat)>): (zs: seq<Zone>)
    ensures forall z :: z in zs <==> ZoneOf(enrolments, hospitals, z)
  {
    ZoneTableMembers(enrolments, hospitals);
    ToZones(LeftJoin0(GroupSum(enrolments), hospitals))
  }

  lemma ZoneTableMembers(enrolments: seq<(Pin, nat)>, hospitals: seq<(Pin, nat)>)
    ensures forall z :: z in ToZones(LeftJoin0(GroupSum(enrolments), hospitals)) <==> ZoneOf(enrolments, hospitals, z)
  {
    forall z ensures z in ToZones(LeftJoin0(GroupSum(enrolments), hospitals)) <==> ZoneOf(enrolments, hospitals, z) {
      if z in ToZones(LeftJoin0(GroupSum(enrolments), hospitals)) {
        ZoneSound(enrolments, hospitals, z);
      }
      if ZoneOf(enrolments, hospitals, z) {
        ZoneComplete(enrolments, hospitals, z);
      }
    }
  }

  lemma ZoneSound(enrolments: seq<(Pin, nat)>, hospitals: seq<(Pin, nat)>, z: Zone)
    requires z in ToZones(LeftJoin0(GroupSum(enrolments), hospitals))
    ensures ZoneOf(enrolments, hospitals, z)
  {
    var g := GroupSum(enrolments);
    var zs := ToZones(LeftJoin0(g, hospitals));
    var i :| 0 <= i < |zs| && zs[i] == z;
    LeftJoin0At(g, hospitals, i);
    TotalsRow(enrolments, z.pincode, z.infants);
  }

  lemma ZoneComplete(enrolments: seq<(Pin, nat)>, hospitals: seq<(Pin, nat)>, z: Zone)
    requires ZoneOf(enrolments, hospitals, z)
    ensures z in ToZones(LeftJoin0(GroupSum(enrolments), hospitals))
  {
    var g := GroupSum(enrolments);
    var j := LeftJoin0(g, hospitals);
    GroupSumRows(enrolments);
    assert (z.pincode, z.infants) in g;
    LeftJoin0Has(g, hospitals, z.pincode, z.infants, z.hospitals);
    var i :| 0 <= i < |j| && j[i] == (z.pincode, (z.infants, z.hospitals));
    assert ToZones(j)[i] == z;
  }

  /**
   * With one row per PIN in the hospital table, the merged table has one row
   * per enrolled PIN, carrying that PIN's hospital count.
   */
  lemma {:induction false} ZoneTableDistinct(enrolments: seq<(Pin, nat)>, hospitals: seq<(Pin, nat)>)
    requires DistinctKeys(hospitals)
    ensures |ZoneTable(enrolments, hospitals)| == |Keys(enrolments)|
    ensures DistinctOn(ZoneTable(enrolments, hospitals), ZonePin)
    ensures forall z :: z in ZoneTable(enrolments, hospitals) ==> z.hospitals == SumFor(hospitals, z.pincode)
  {
    var g := GroupSum(enrolments);
    var zs := ZoneTable(enrolments, hospitals);
    LeftJoin0Distinct(g, hospitals);
    DistinctKeysCount(g);
    forall z | z in zs ensures z.hospitals == SumFor(hospitals, z.pincode) {
      var i :| 0 <= i < |zs| && zs[i] == z;
    }
    DistinctKeysIndices(g);
    forall i, k | 0 <= i < k < |zs| ensures ZonePin(zs[i]) != ZonePin(zs[k]) {
      assert ZonePin(zs[i]) == g[i].0 && ZonePin(zs[k]) == g[k].0;
    }
  }

  /**
   * The top risk zones: among the merged rows with more than 500 infants and
   * no hospital, the 10 with the most infants, most first.
   */
  function TopRiskZones(enrolments: seq<(Pin, nat)>, hospitals: seq<(Pin, nat)>): (top: seq<Zone>)
    ensures |top| <= TopCount
    ensures forall z :: z in top ==> ZoneOf(enrolments, hospitals, z) && z.infants > MinInfants && z.hospitals == 0
    ensures NonIncreasing(top, Infants)
    ensures forall z, i :: ZoneOf(enrolments, hospitals, z) && AtRisk(z) && z !in top && 0 <= i < |top| ==> z.infants <= top[i].infants
    ensures |top| < TopCount ==> forall z :: ZoneOf(enrolments, hospitals, z) && AtRisk(z) ==> z in top
    ensures DistinctKeys(hospitals) ==> |top| <= |Keys(enrolments)| && DistinctOn(top, ZonePin)
  {
    var merged := ZoneTable(enrolments, hospitals);
    var top := TopWhere(merged, AtRisk, TopCount, Infants);
    RiskExcluded(enrolments, hospitals, top);
    RiskComplete(enrolments, hospitals, top);
    RiskDistinct(enrolments, hospitals, top);
    top
  }

  lemma RiskDistinct(enrolments: seq<(Pin, nat)>, hospitals: seq<(Pin, nat)>, top: seq<Zone>)
    requires top == TopWhere(ZoneTable(enrolments, hospitals), AtRisk, TopCount, Infants)
    ensures DistinctKeys(hospitals) ==> |top| <= |Keys(enrolments)| && DistinctOn(top, ZonePin)
  {
    if DistinctKeys(hospitals) {
      ZoneTableDistinct(enrolments, hospitals);
      SubMultisetDistinctOn(top, ZoneTable(enrolments, hospitals), ZonePin);
    }
  }

  lemma RiskExcluded(enrolments: seq<(Pin, nat)>, hospitals: seq<(Pin, nat)>, top: seq<Zone>)
    requires top == TopWhere(ZoneTable(enrolments, hospitals), AtRisk, TopCount, Infants)
    ensures forall z, i :: ZoneOf(enrolments, hospitals, z) && AtRisk(z) && z !in top && 0 <= i < |top| ==> z.infants <= top[i].infants
  {
    forall z | ZoneOf(enrolments, hospitals, z) && AtRisk(z) && z !in top {
      RiskExcludedAt(enrolments, hospitals, top, z);
    }
  }

  lemma RiskExcludedAt(enrolments: seq<(Pin, nat)>, hospitals: seq<(Pin, nat)>, top: seq<Zone>, z: Zone)
    requires top == TopWhere(ZoneTable(enrolments, hospitals), AtRisk, TopCount, Infants)
    requires ZoneOf(enrolments, hospitals, z) && AtRisk(z) && z !in top
    ensures forall i :: 0 <= i < |top| ==> z.infants <= top[i].infants
  {
    var f := Filter(ZoneTable(enrolments, hospitals), AtRisk);
    assert z in f;
    TopNExcluded(f, TopCount, Infants, z);
  }

  lemma RiskComplete(enrolments: seq<(Pin, nat)>, hospitals: seq<(Pin, nat)>, top: seq<Zone>)
    requires top == TopWhere(ZoneTable(enrolments, hospitals), AtRisk, TopCount, Infants)
    ensures |top| < TopCount ==> forall z :: ZoneOf(enrolments, hospitals, z) && AtRisk(z) ==> z in top
  {
    if |top| < TopCount {
      forall z | ZoneOf(enrolments, hospitals, z) && AtRisk(z) ensures z in top {
        assert z in ZoneTable(enrolments, hospitals);
      }
    }
  }

  /**
   * A PIN absent from the hospital table is zero-filled, so with more than 500
   * infants (here summed over two rows) it is a risk zone.
   */
  lemma MissingPinIsRisk()
    ensures TopRiskZones([(110001, 400), (110001, 200)], []) == [Zone(110001, 600, 0)]
  {
    var e: seq<(Pin, nat)> := [(110001, 400), (110001, 200)];
    var none: seq<(Pin, nat)> := [];
    KeysCons(e);
    KeysCons(e[1..]);
    assert e[1..][1..] == [];
    var z := Zone(110001, 600, 0);
    assert ZoneOf(e, none, z);
    var top := TopRiskZones(e, none);
    assert |top| <= 1;
    assert top == [z] by {
      assert z in top;
    }
  }

  /**
   * With one hospital row per PIN, a PIN that has a hospital is never a risk
   * zone. (A hospital table listing a PIN twice, once with 0, could still
   * make that PIN a zone with no hospital.)
   */
  lemma HospitalPinNeverAtRisk(enrolments: seq<(Pin, nat)>, hospitals: seq<(Pin, nat)>, p: Pin, c: nat)
    requires DistinctKeys(hospitals) && (p, c) in hospitals && c > 0
    ensures forall z :: z in TopRiskZones(enrolments, hospitals) ==> z.pincode != p
  {
    KeysMembership(hospitals, p);
    forall z | z in TopRiskZones(enrolments, hospitals) && z.pincode == p ensures false {
      assert (p, 0) in hospitals;
      DistinctSameKey(hospitals, (p, 0), (p, c));
    }
  }

  /** An example: a PIN with one hospital is not reported. */
  lemma HospitalPinNoRisk()
    ensures TopRiskZones([(110001, 600)], [(110001, 1)]) == []
  {
    var e: seq<(Pin, nat)> := [(110001, 600)];
    var h: seq<(Pin, nat)> := [(110001, 1)];
    KeysCons(e);
    KeysCons(h);
    assert forall z :: ZoneOf(e, h, z) ==> z.hospitals == 1;
  }
}
