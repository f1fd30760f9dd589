/**
 * The district stress index (ASISI) of `run_asisi_analysis`: a batch of
 * census rows and a batch of service-log rows are projected, merged on the
 * normalised district name and enriched with four metrics (weighted load,
 * rejection rate, recovery slope, centers per 10k people). Each metric is
 * min-max scaled across the batch, the saturation series inverted, and the
 * four scaled series combined with weights 0.35 / 0.25 / 0.25 / 0.15 into a
 * score that is classified as critical, warning or stable.
 *
 * The random parts of the source (the divisor of the center estimate and the
 * rejection noise) are inputs. A value the source computes as NaN (a ratio
 * 0 / 0) is `None`; it is ignored by the scaler, kept undefined through the
 * score, and classified as stable, since every comparison with NaN is false.
 */
module Asisi {
  import opened Options
  import Tables
  import DistrictKeys
  import LeastSquares
  import MinMax

  // ---------------------------------------------------------------------------
  // Inputs
  // ---------------------------------------------------------------------------

  /** A draw of `np.random.randint(18000, 22000)`: people served by one center. */
  type Divisor = d: int | 18000 <= d < 22000 witness 18000

  /** A draw of `np.random.uniform(0, 0.02)`: the rejection-rate noise. */
  type Noise = r: real | 0.0 <= r < 0.02 witness 0.0

  /** A row of the 2011 census table. */
  datatype CensusRow = CensusRow(stateName: string, districtName: string, population: nat,
                                 ruralHouseholds: nat, urbanHouseholds: nat)

  /** A row of the service logs, with its authentication volume and daily load history. */
  datatype LogRow = LogRow(state: string, district: string, enrolment: nat, demoUpdates: nat,
                           bioUpdates: nat, authVolume: nat, history: seq<int>)

  // ---------------------------------------------------------------------------
  // Projection to 2025 and the supply estimate
  // ---------------------------------------------------------------------------

  function Pow(x: real, n: nat): real
  {
    if n == 0 then 1.0 else x * Pow(x, n - 1)
  }

  /** Growth over the 14 years 2011 to 2025 at 1.2 % a year. */
  const Growth: real := Pow(1.012, 14)

  lemma GrowthBounds()
    ensures 1.18 < Growth < 1.19
  {
  }

  /** `(Population * growth_factor).astype(int)`: the projected population, truncated. */
  function Pop2025(population: nat): (p: nat)
    ensures population <= p
    ensures p as real <= population as real * Growth < p as real + 1.0
    ensures p as real <= 1.19 * population as real
  {
    GrowthBounds();
    GrowAtLeast(population as real, Growth);
    (population as real * Growth).Floor
  }

  lemma GrowAtLeast(x: real, g: real)
    requires x >= 0.0 && 1.18 < g < 1.19
    ensures x <= x * g <= 1.19 * x
  {
  }

  /** `(Pop_2025 / divisor).astype(int)`: whole centers for the projected population. */
  function EstCenters(pop2025: nat, d: Divisor): (e: nat)
    ensures e * d <= pop2025 < e * d + d
    ensures pop2025 < 18000 ==> e == 0
  {
    DivBounds(pop2025, d);
    pop2025 / d
  }

  lemma DivBounds(p: nat, d: int)
    requires d >= 18000
    ensures (p / d) * d <= p < (p / d) * d + d
    ensures p < 18000 ==> p / d == 0
  {
    var e, r := p / d, p % d;
    assert p == e * d + r && 0 <= r < d;
  }

  /** A census row with its projected population and estimated centers. */
  datatype Projected = Projected(row: CensusRow, divisor: Divisor, pop2025: nat, estCenters: nat)

  /** The projection of one census row with its own divisor draw. */
  function ProjectRow(c: CensusRow, d: Divisor): (p: Projected)
    ensures p.row == c && p.divisor == d
    ensures c.population <= p.pop2025 && p.estCenters * d <= p.pop2025
  {
    var pop := Pop2025(c.population);
    Projected(c, d, pop, EstCenters(pop, d))
  }

  /** Lines 87-92 over the census table, one divisor per row. */
  function Project(census: seq<CensusRow>, divisors: seq<Divisor>): (ps: seq<Projected>)
    requires |divisors| == |census|
    ensures |ps| == |census|
    ensures forall i :: 0 <= i < |census| ==> ps[i] == ProjectRow(census[i], divisors[i])
  {
    seq(|census|, i requires 0 <= i < |census| => ProjectRow(census[i], divisors[i]))
  }

  // ---------------------------------------------------------------------------
  // The merge on the normalised district name
  // ---------------------------------------------------------------------------

  function CensusKeyed(ps: seq<Projected>): (t: seq<(string, Projected)>)
    ensures |t| == |ps|
    ensures forall i :: 0 <= i < |ps| ==> t[i] == (DistrictKeys.Key(ps[i].row.districtName), ps[i])
  {
    seq(|ps|, i requires 0 <= i < |ps| => (DistrictKeys.Key(ps[i].row.districtName), ps[i]))
  }

  function LogKeyed(logs: seq<LogRow>): (t: seq<(string, LogRow)>)
    ensures |t| == |logs|
    ensures forall i :: 0 <= i < |logs| ==> t[i] == (DistrictKeys.Key(logs[i].district), logs[i])
  {
    seq(|logs|, i requires 0 <= i < |logs| => (DistrictKeys.Key(logs[i].district), logs[i]))
  }

  /** `pd.merge(df_census, df_aadhaar, on='key', how='inner')`. */
  function Merge(ps: seq<Projected>, logs: seq<LogRow>): seq<(string, (Projected, LogRow))>
  {
    Tables.InnerJoin(CensusKeyed(ps), LogKeyed(logs))
  }

  lemma KeyedMember<V>(t: seq<(string, V)>, vs: seq<V>, key: V -> string, k: string, v: V)
    requires |t| == |vs| && forall i :: 0 <= i < |vs| ==> t[i] == (key(vs[i]), vs[i])
    ensures (k, v) in t <==> v in vs && k == key(v)
  {
    if v in vs && k == key(v) {
      var i :| 0 <= i < |vs| && vs[i] == v;
      assert t[i] == (k, v);
    }
  }

  function CensusKey(p: Projected): string
  {
    DistrictKeys.Key(p.row.districtName)
  }

  function LogKey(l: LogRow): string
  {
    DistrictKeys.Key(l.district)
  }

  /**
   * A census row and a log row are merged, under their common key, exactly
   * when both are in their tables and their district names agree once
   * lower-cased and stripped; the state columns play no part.
   */
  lemma MergeMembers(ps: seq<Projected>, logs: seq<LogRow>, c: Projected, l: LogRow)
    ensures (CensusKey(c), (c, l)) in Merge(ps, logs) <==> c in ps && l in logs && CensusKey(c) == LogKey(l)
  {
    KeyedMember(CensusKeyed(ps), ps, CensusKey, CensusKey(c), c);
    KeyedMember(LogKeyed(logs), logs, LogKey, CensusKey(c), l);
  }

  /** Every merged row pairs a census row and a log row with the same key. */
  lemma MergeRows(ps: seq<Projected>, logs: seq<LogRow>, i: int)
    requires 0 <= i < |Merge(ps, logs)|
    ensures Merge(ps, logs)[i].1.0 in ps && Merge(ps, logs)[i].1.1 in logs
    ensures Merge(ps, logs)[i].0 == CensusKey(Merge(ps, logs)[i].1.0) == LogKey(Merge(ps, logs)[i].1.1)
  {
    var m := Merge(ps, logs);
    var x := m[i];
    assert (x.0, (x.1.0, x.1.1)) in m;
    KeyedMember(CensusKeyed(ps), ps, CensusKey, x.0, x.1.0);
    KeyedMember(LogKeyed(logs), logs, LogKey, x.0, x.1.1);
  }

  lemma {:induction false} KeyedCount<V>(t: seq<(string, V)>, vs: seq<V>, key: V -> string, k: string, v: V)
    requires |t| == |vs| && forall i :: 0 <= i < |vs| ==> t[i] == (key(vs[i]), vs[i])
    ensures multiset(t)[(k, v)] == if k == key(v) then multiset(vs)[v] else 0
  {
    if vs != [] {
      assert forall i :: 0 <= i < |vs[1..]| ==> t[1..][i] == (key(vs[1..][i]), vs[1..][i]);
      KeyedCount(t[1..], vs[1..], key, k, v);
      assert t == [t[0]] + t[1..];
      assert vs == [vs[0]] + vs[1..];
      assert multiset(t) == multiset{t[0]} + multiset(t[1..]);
      assert multiset(vs) == multiset{vs[0]} + multiset(vs[1..]);
    }
  }

  /**
   * The merge is the product of the two tables name by name: a census row and
   * a log row with the same key are paired as many times as the census row
   * occurs times as many times as the log row occurs, so a district name
   * shared by several census or log rows gives every combination; a pair
   * whose keys differ is never formed. (nc and nl name the two counts.)
   */
  lemma MergeMultiplicity(ps: seq<Projected>, logs: seq<LogRow>, k: string, c: Projected, l: LogRow, nc: nat, nl: nat)
    requires nc == multiset(ps)[c] && nl == multiset(logs)[l]
    ensures multiset(Merge(ps, logs))[(k, (c, l))] == if k == CensusKey(c) && k == LogKey(l) then nc * nl else 0
  {
    var t := CensusKeyed(ps);
    var u := LogKeyed(logs);
    Tables.InnerJoinCount(t, u, (k, (c, l)));
    KeyedCount(t, ps, CensusKey, k, c);
    KeyedCount(u, logs, LogKey, k, l);
    if !(k == CensusKey(c) && k == LogKey(l)) {
      assert multiset(t)[(k, c)] == 0 || multiset(u)[(k, l)] == 0;
    }
  }

  /** With district names unique on each side, the merge has one row per name common to both. */
  lemma MergeCount(ps: seq<Projected>, logs: seq<LogRow>)
    requires Tables.DistinctKeys(CensusKeyed(ps)) && Tables.DistinctKeys(LogKeyed(logs))
    ensures |Merge(ps, logs)| == |Tables.Keys(CensusKeyed(ps)) * Tables.Keys(LogKeyed(logs))|
  {
    Tables.InnerJoinDistinct(CensusKeyed(ps), LogKeyed(logs));
  }

  // ---------------------------------------------------------------------------
  // The four metrics
  // ---------------------------------------------------------------------------

  /** `1.0 * enrolment + 0.8 * demo + 0.8 * bio + 0.1 * auth` (lines 105-110). */
  function WeightedLoad(enrolment: nat, demo: nat, bio: nat, auth: nat): (w: real)
    ensures w >= 0.0
    ensures w >= enrolment as real
  {
    1.0 * enrolment as real + 0.8 * demo as real + 0.8 * bio as real + 0.1 * auth as real
  }

  /** More of any kind of transaction never lowers the weighted load. */
  lemma WeightedLoadMonotone(e: nat, d: nat, b: nat, a: nat, e': nat, d': nat, b': nat, a': nat)
    requires e <= e' && d <= d' && b <= b' && a <= a'
    ensures WeightedLoad(e, d, b, a) <= WeightedLoad(e', d', b', a')
    ensures WeightedLoad(e, d, b, a) == WeightedLoad(e', d', b', a') <==> e == e' && d == d' && b == b' && a == a'
  {
  }

  /** The rural share of households; undefined (NaN) when there are none. */
  function RuralRatio(rural: nat, urban: nat): (r: Option<real>)
    ensures r.None? <==> rural + urban == 0
    ensures r.Some? ==> 0.0 <= r.value <= 1.0
    ensures r.Some? ==> (r.value == 0.0 <==> rural == 0) && (r.value == 1.0 <==> urban == 0)
  {
    if rural + urban == 0 then None
    else
      var t := (rural + urban) as real;
      MinMax.QuotientAtMostOne(rural as real, t);
      QuotientOne(rural as real, t);
      Some(rural as real / t)
  }

  lemma QuotientOne(x: real, d: real)
    requires d > 0.0
    ensures x / d == 1.0 <==> x == d
    ensures x / d == 0.0 <==> x == 0.0
  {
    assert x / d * d == x;
  }

  /** `0.03 + 0.05 * rural_ratio + noise` (lines 114-116). */
  function RejectionRate(rural: nat, urban: nat, noise: Noise): (r: Option<real>)
    ensures r.None? <==> rural + urban == 0
    ensures r.Some? ==> 0.03 <= r.value < 0.10
  {
    var q := RuralRatio(rural, urban);
    if q.None? then None else Some(0.03 + 0.05 * q.value + noise)
  }

  /** With the same noise, a district with a larger rural share gets the larger rejection rate. */
  lemma RejectionMonotone(rural: nat, urban: nat, rural': nat, urban': nat, noise: Noise)
    requires RuralRatio(rural, urban).Some? && RuralRatio(rural', urban').Some?
    requires RuralRatio(rural, urban).value <= RuralRatio(rural', urban').value
    ensures RejectionRate(rural, urban, noise).value <= RejectionRate(rural', urban', noise).value
  {
  }

  /** A history as real numbers, day i holding the load of day i. */
  function AsReals(h: seq<int>): (ys: seq<real>)
    ensures |ys| == |h|
    ensures forall i :: 0 <= i < |h| ==> ys[i] == h[i] as real
  {
    seq(|h|, i requires 0 <= i < |h| => h[i] as real)
  }

  /** `get_slope`: the slope of `np.polyfit(range(n), history, 1)` (lines 122-127). */
  function RecoverySlope(h: seq<int>): real
    requires |h| >= 2
  {
    LeastSquares.Slope(AsReals(h))
  }

  /**
   * The recovery slope is the least-squares slope: its line leaves residuals
   * that sum to zero and are orthogonal to the day index, and it is the only
   * slope with a line that does so.
   */
  lemma RecoverySlopeFits(h: seq<int>, a: real, b: real)
    requires |h| >= 2
    ensures LeastSquares.ResidualSum(AsReals(h), RecoverySlope(h), LeastSquares.Intercept(AsReals(h)), |h|) == 0.0
    ensures LeastSquares.ResidualMoment(AsReals(h), RecoverySlope(h), LeastSquares.Intercept(AsReals(h)), |h|) == 0.0
    ensures LeastSquares.ResidualSum(AsReals(h), a, b, |h|) == 0.0 && LeastSquares.ResidualMoment(AsReals(h), a, b, |h|) == 0.0
            ==> a == RecoverySlope(h)
  {
    LeastSquares.NormalEquations(AsReals(h));
    if LeastSquares.ResidualSum(AsReals(h), a, b, |h|) == 0.0 && LeastSquares.ResidualMoment(AsReals(h), a, b, |h|) == 0.0 {
      LeastSquares.FitUnique(AsReals(h), a, b);
    }
  }

  /** A history growing by exactly d a day has recovery slope d. */
  lemma LinearHistory(h: seq<int>, a: int, d: int)
    requires |h| >= 2
    requires forall i :: 0 <= i < |h| ==> h[i] == a + d * i
    ensures RecoverySlope(h) == d as real
  {
    var ys := AsReals(h);
    forall i | 0 <= i < |ys| ensures ys[i] == a as real + d as real * i as real {
      CastLinear(a, d, i, h[i]);
    }
    LeastSquares.LinearSlope(ys, a as real, d as real);
  }

  lemma CastLinear(a: int, d: int, i: int, y: int)
    requires y == a + d * i
    ensures y as real == a as real + d as real * i as real
  {
    assert (d * i) as real == d as real * i as real;
  }

  /** A flat history has recovery slope 0. */
  lemma FlatHistory(h: seq<int>)
    requires |h| >= 2
    requires forall i :: 0 <= i < |h| ==> h[i] == h[0]
    ensures RecoverySlope(h) == 0.0
  {
    LeastSquares.ConstantSlope(AsReals(h), h[0] as real);
  }

  /**
   * The slope is positive (the backlog is building) exactly when day and load
   * covary positively, and negative (the backlog is clearing) exactly when
   * they covary negatively.
   */
  lemma BacklogSign(h: seq<int>)
    requires |h| >= 2
    ensures RecoverySlope(h) > 0.0 <==> LeastSquares.Covariance(LeastSquares.MomentsOf(AsReals(h), |h|)) > 0.0
    ensures RecoverySlope(h) < 0.0 <==> LeastSquares.Covariance(LeastSquares.MomentsOf(AsReals(h), |h|)) < 0.0
  {
    LeastSquares.SlopeSign(AsReals(h));
  }

  /** `Est_Centers / Pop_2025 * 10000` (line 132); undefined (NaN) for an empty district. */
  function CentersPer10k(est: nat, pop: nat): (c: Option<real>)
    ensures c.None? <==> pop == 0
    ensures c.Some? ==> c.value >= 0.0
  {
    if pop == 0 then None else Some(est as real / pop as real * 10000.0)
  }

  /**
   * The estimate never promises more than one center per 18000 people, so a
   * district has at most 10000 / 18000 centers per 10k people.
   */
  lemma CentersBound(p: Projected)
    requires p == ProjectRow(p.row, p.divisor) && p.pop2025 > 0
    ensures CentersPer10k(p.estCenters, p.pop2025).value <= 10000.0 / 18000.0
  {
    var e, pop, d := p.estCenters as real, p.pop2025 as real, p.divisor as real;
    assert (p.estCenters * p.divisor) as real == e * d;
    RatioBound(e, pop, d);
  }

  lemma RatioBound(e: real, pop: real, d: real)
    requires e >= 0.0 && pop > 0.0 && d >= 18000.0 && e * d <= pop
    ensures e / pop * 10000.0 <= 10000.0 / 18000.0
  {
    assert e * 18000.0 <= e * d;
    var r := e / pop;
    assert r * pop == e;
    assert (r * 18000.0 - 1.0) * pop <= 0.0;
    assert r * 18000.0 <= 1.0;
  }

  // ---------------------------------------------------------------------------
  // The enriched batch
  // ---------------------------------------------------------------------------

  /** A merged district with its four metrics. */
  datatype Region = Region(key: string, census: Projected, log: LogRow, weightedLoad: real,
                           rejectionRate: Option<real>, recoverySlope: real, centersPer10k: Option<real>)

  /** The metrics of one merged row (lines 105-132). */
  function RegionOf(key: string, c: Projected, l: LogRow, noise: Noise): (r: Region)
    requires |l.history| >= 2
    ensures r.key == key && r.census == c && r.log == l
    ensures r.weightedLoad == WeightedLoad(l.enrolment, l.demoUpdates, l.bioUpdates, l.authVolume)
    ensures r.rejectionRate == RejectionRate(c.row.ruralHouseholds, c.row.urbanHouseholds, noise)
    ensures r.recoverySlope == RecoverySlope(l.history)
    ensures r.centersPer10k == CentersPer10k(c.estCenters, c.pop2025)
  {
    Region(key, c, l,
           WeightedLoad(l.enrolment, l.demoUpdates, l.bioUpdates, l.authVolume),
           RejectionRate(c.row.ruralHouseholds, c.row.urbanHouseholds, noise),
           RecoverySlope(l.history),
           CentersPer10k(c.estCenters, c.pop2025))
  }

  /** Every merged log row has enough history for a slope. */
  predicate HistoriesOk(m: seq<(string, (Projected, LogRow))>)
  {
    forall i :: 0 <= i < |m| ==> |m[i].1.1.history| >= 2
  }

  /** The metric columns added to the merged table, one noise draw per row. */
  function Enrich(m: seq<(string, (Projected, LogRow))>, noise: seq<Noise>): (rs: seq<Region>)
    requires |noise| == |m| && HistoriesOk(m)
    ensures |rs| == |m|
    ensures forall i :: 0 <= i < |m| ==> rs[i] == RegionOf(m[i].0, m[i].1.0, m[i].1.1, noise[i])
  {
    seq(|m|, i requires 0 <= i < |m| => RegionOf(m[i].0, m[i].1.0, m[i].1.1, noise[i]))
  }

  // ---------------------------------------------------------------------------
  // Scaling, the composite score and the status
  // ---------------------------------------------------------------------------

  function Loads(rs: seq<Region>): (s: seq<Option<real>>)
    ensures |s| == |rs| && forall i :: 0 <= i < |rs| ==> s[i] == Some(rs[i].weightedLoad)
  {
    seq(|rs|, i requires 0 <= i < |rs| => Some(rs[i].weightedLoad))
  }

  function Rejections(rs: seq<Region>): (s: seq<Option<real>>)
    ensures |s| == |rs| && forall i :: 0 <= i < |rs| ==> s[i] == rs[i].rejectionRate
  {
    seq(|rs|, i requires 0 <= i < |rs| => rs[i].rejectionRate)
  }

  function Slopes(rs: seq<Region>): (s: seq<Option<real>>)
    ensures |s| == |rs| && forall i :: 0 <= i < |rs| ==> s[i] == Some(rs[i].recoverySlope)
  {
    seq(|rs|, i requires 0 <= i < |rs| => Some(rs[i].recoverySlope))
  }

  function Centers(rs: seq<Region>): (s: seq<Option<real>>)
    ensures |s| == |rs| && forall i :: 0 <= i < |rs| ==> s[i] == rs[i].centersPer10k
  {
    seq(|rs|, i requires 0 <= i < |rs| => rs[i].centersPer10k)
  }

  /** `1 - scaled`: fewer centers per person is more stress. */
  function Invert(o: Option<real>): (r: Option<real>)
    ensures r.Some? <==> o.Some?
    ensures r.Some? ==> r.value == 1.0 - o.value
  {
    if o.None? then None else Some(1.0 - o.value)
  }

  const LoadWeight: real := 0.35
  const QualityWeight: real := 0.25
  const ResilienceWeight: real := 0.25
  const SaturationWeight: real := 0.15

  /** The ASISI formula (lines 158-163). */
  function Composite(load: real, quality: real, resilience: real, saturation: real): (s: real)
    ensures 0.0 <= load <= 1.0 && 0.0 <= quality <= 1.0 && 0.0 <= resilience <= 1.0 && 0.0 <= saturation <= 1.0
            ==> 0.0 <= s <= 1.0
  {
    LoadWeight * load + QualityWeight * quality + ResilienceWeight * resilience + SaturationWeight * saturation
  }

  /**
   * The weights sum to one: four components with the same value score that
   * value, so an index with every component at its worst is 1 and with every
   * component at its best is 0.
   */
  lemma CompositeUniform(x: real)
    ensures LoadWeight + QualityWeight + ResilienceWeight + SaturationWeight == 1.0
    ensures Composite(x, x, x, x) == x
  {
  }

  /** The score never decreases when any component grows, and grows when one does strictly. */
  lemma CompositeMonotone(l: real, q: real, r: real, s: real, l': real, q': real, r': real, s': real)
    requires l <= l' && q <= q' && r <= r' && s <= s'
    ensures Composite(l, q, r, s) <= Composite(l', q', r', s')
    ensures (l < l' || q < q' || r < r' || s < s') ==> Composite(l, q, r, s) < Composite(l', q', r', s')
  {
  }

  /** The score of four scaled entries; NaN in any of them makes the score NaN. */
  function Combine(load: Option<real>, quality: Option<real>, resilience: Option<real>, saturation: Option<real>): (s: Option<real>)
    ensures s.Some? <==> load.Some? && quality.Some? && resilience.Some? && saturation.Some?
    ensures s.Some? ==> s.value == Composite(load.value, quality.value, resilience.value, saturation.value)
  {
    if load.Some? && quality.Some? && resilience.Some? && saturation.Some? then
      Some(Composite(load.value, quality.value, resilience.value, saturation.value))
    else
      None
  }

  /** The ASISI score of every region, each series scaled across the batch (lines 136-163). */
  function Scores(rs: seq<Region>): (s: seq<Option<real>>)
    ensures |s| == |rs|
    ensures forall i :: 0 <= i < |rs| ==> (s[i].Some? <==> rs[i].rejectionRate.Some? && rs[i].centersPer10k.Some?)
    ensures forall i :: 0 <= i < |rs| && s[i].Some? ==> 0.0 <= s[i].value <= 1.0
  {
    var sl, sq, sr, sc := MinMax.Scale(Loads(rs)), MinMax.Scale(Rejections(rs)), MinMax.Scale(Slopes(rs)), MinMax.Scale(Centers(rs));
    seq(|rs|, i requires 0 <= i < |rs| => Combine(sl[i], sq[i], sr[i], Invert(sc[i])))
  }

  /** The score of region i from its four scaled entries. */
  lemma ScoreAt(rs: seq<Region>, i: int)
    requires 0 <= i < |rs|
    ensures Scores(rs)[i] == Combine(MinMax.Scale(Loads(rs))[i], MinMax.Scale(Rejections(rs))[i],
                                     MinMax.Scale(Slopes(rs))[i], Invert(MinMax.Scale(Centers(rs))[i]))
  {
  }

  /**
   * A district with more centers per 10k people never has the higher
   * saturation stress.
   */
  lemma SaturationOrder(rs: seq<Region>, i: int, j: int)
    requires 0 <= i < |rs| && 0 <= j < |rs|
    requires rs[i].centersPer10k.Some? && rs[j].centersPer10k.Some?
    requires rs[i].centersPer10k.value <= rs[j].centersPer10k.value
    ensures Invert(MinMax.Scale(Centers(rs))[j]).Some? && Invert(MinMax.Scale(Centers(rs))[i]).Some?
    ensures 0.0 <= Invert(MinMax.Scale(Centers(rs))[j]).value <= Invert(MinMax.Scale(Centers(rs))[i]).value <= 1.0
  {
    var c := Centers(rs);
    assert c[i] == rs[i].centersPer10k && c[j] == rs[j].centersPer10k;
  }

  /** Region i is at least as stressed as region j on all four metrics. */
  predicate Dominates(x: Region, y: Region)
  {
    && x.weightedLoad >= y.weightedLoad
    && x.rejectionRate.Some? && y.rejectionRate.Some? && x.rejectionRate.value >= y.rejectionRate.value
    && x.recoverySlope >= y.recoverySlope
    && x.centersPer10k.Some? && y.centersPer10k.Some? && x.centersPer10k.value <= y.centersPer10k.value
  }

  /** A district at least as stressed on every metric scores at least as high. */
  lemma DominanceOrder(rs: seq<Region>, i: int, j: int)
    requires 0 <= i < |rs| && 0 <= j < |rs| && Dominates(rs[i], rs[j])
    ensures Scores(rs)[i].Some? && Scores(rs)[j].Some?
    ensures Scores(rs)[j].value <= Scores(rs)[i].value
  {
    var sl, sq, sr, sc := MinMax.Scale(Loads(rs)), MinMax.Scale(Rejections(rs)), MinMax.Scale(Slopes(rs)), MinMax.Scale(Centers(rs));
    assert Loads(rs)[j].value <= Loads(rs)[i].value;
    assert Rejections(rs)[j].value <= Rejections(rs)[i].value;
    assert Slopes(rs)[j].value <= Slopes(rs)[i].value;
    SaturationOrder(rs, i, j);
    ScoreAt(rs, i);
    ScoreAt(rs, j);
    CompositeMonotone(sl[j].value, sq[j].value, sr[j].value, Invert(sc[j]).value,
                      sl[i].value, sq[i].value, sr[i].value, Invert(sc[i]).value);
  }

  /**
   * A batch of one district with defined metrics scales every series to 0,
   * so the district scores 0.15 from its inverted saturation alone.
   */
  lemma SingleRegion(r: Region)
    requires r.rejectionRate.Some? && r.centersPer10k.Some?
    ensures Scores([r]) == [Some(0.15)]
    ensures Classify(Some(0.15)) == Stable
  {
    var rs := [r];
    MinMax.ScaleConstant(Loads(rs));
    MinMax.ScaleConstant(Rejections(rs));
    MinMax.ScaleConstant(Slopes(rs));
    MinMax.ScaleConstant(Centers(rs));
    ScoreAt(rs, 0);
  }

  /** Region y is worse than region x on every one of the four metrics. */
  predicate WorseEverywhere(x: Region, y: Region)
  {
    && x.weightedLoad < y.weightedLoad
    && x.rejectionRate.Some? && y.rejectionRate.Some? && x.rejectionRate.value < y.rejectionRate.value
    && x.recoverySlope < y.recoverySlope
    && x.centersPer10k.Some? && y.centersPer10k.Some? && x.centersPer10k.value > y.centersPer10k.value
  }

  /**
   * In a batch of two districts, one worse than the other on every metric,
   * the better one sits at the healthy extreme of every series and scores 0
   * (stable), the worse one at the stressed extreme and scores 1 (critical).
   */
  lemma TwoRegions(x: Region, y: Region)
    requires WorseEverywhere(x, y)
    ensures Scores([x, y]) == [Some(0.0), Some(1.0)]
    ensures Classify(Some(0.0)) == Stable && Classify(Some(1.0)) == Critical
  {
    var rs := [x, y];
    MinMax.ScalePair(Loads(rs));
    MinMax.ScalePair(Rejections(rs));
    MinMax.ScalePair(Slopes(rs));
    var c := Centers(rs);
    var flipped := [c[1], c[0]];
    MinMax.ScalePair(flipped);
    ScaleSwap(c);
    ScoreAt(rs, 0);
    ScoreAt(rs, 1);
    CompositeUniform(0.0);
    CompositeUniform(1.0);
  }

  /** Scaling a pair does not depend on the order of its two entries. */
  lemma ScaleSwap(s: seq<Option<real>>)
    requires |s| == 2 && s[0].Some? && s[1].Some? && s[0].value > s[1].value
    ensures MinMax.Scale(s) == [Some(1.0), Some(0.0)]
  {
    MinMax.MinOfSpec(s);
    MinMax.MaxOfSpec(s);
    assert MinMax.MinOf(s) == s[1] && MinMax.MaxOf(s) == s[0];
    MinMax.ScaleEndpoints(s, 0);
    MinMax.ScaleEndpoints(s, 1);
  }

  /** The status labels of `get_status`. */
  datatype Status = Critical | Warning | Stable

  /** `get_status` (lines 166-169); a NaN score fails both comparisons and is stable. */
  function Classify(score: Option<real>): (st: Status)
    ensures st == Critical <==> score.Some? && score.value > 0.7
    ensures st == Warning <==> score.Some? && 0.45 < score.value <= 0.7
    ensures st == Stable <==> score.None? || score.value <= 0.45
  {
    if score.Some? && score.value > 0.7 then Critical
    else if score.Some? && score.value > 0.45 then Warning
    else Stable
  }

  /** How severe a status is: stable 0, warning 1, critical 2. */
  function Severity(st: Status): nat
  {
    match st
    case Stable => 0
    case Warning => 1
    case Critical => 2
  }

  /** A higher score never gets a less severe status. */
  lemma ClassifyMonotone(x: real, y: real)
    requires x <= y
    ensures Severity(Classify(Some(x))) <= Severity(Classify(Some(y)))
  {
  }

  /** The thresholds are strict: 0.7 itself is a warning and 0.45 itself is stable. */
  lemma ClassifyBoundaries(x: real)
    ensures x == 0.7 ==> Classify(Some(x)) == Warning
    ensures x == 0.45 ==> Classify(Some(x)) == Stable
    ensures x > 0.7 ==> Classify(Some(x)) == Critical
  {
  }

  // ---------------------------------------------------------------------------
  // The whole analysis
  // ---------------------------------------------------------------------------

  /** Why the analysis stops without a result. */
  datatype Failure =
    | MalformedHistory  // `np.polyfit` needs two days of history
    | EmptyBatch        // `MinMaxScaler` refuses an empty table

  /** A district of the final table: its metrics, score and status. */
  datatype Scored = Scored(region: Region, score: Option<real>, status: Status)

  datatype Outcome = Done(rows: seq<Scored>) | Failed(failure: Failure)

  /** The final table of an enriched batch. */
  function ScoreAll(rs: seq<Region>): (t: seq<Scored>)
    ensures |t| == |rs|
    ensures forall i :: 0 <= i < |rs| ==> t[i].region == rs[i] && t[i].status == Classify(t[i].score)
    ensures forall i :: 0 <= i < |rs| ==> t[i].score == Scores(rs)[i]
  {
    var s := Scores(rs);
    seq(|rs|, i requires 0 <= i < |rs| => Scored(rs[i], s[i], Classify(s[i])))
  }

  /**
   * `run_asisi_analysis` (lines 85-173) on supplied tables and random draws:
   * one divisor per census row and one noise draw per merged row.
   */
  function Run(census: seq<CensusRow>, divisors: seq<Divisor>, logs: seq<LogRow>, noise: seq<Noise>): (o: Outcome)
    requires |divisors| == |census|
    requires |noise| == |Merge(Project(census, divisors), logs)|
    ensures o == Failed(MalformedHistory) <==> !HistoriesOk(Merge(Project(census, divisors), logs))
    ensures o == Failed(EmptyBatch) <==> Merge(Project(census, divisors), logs) == []
    ensures o.Done? ==> |o.rows| == |Merge(Project(census, divisors), logs)| > 0
  {
    var m := Merge(Project(census, divisors), logs);
    if !HistoriesOk(m) then Failed(MalformedHistory)
    else if m == [] then Failed(EmptyBatch)
    else Done(ScoreAll(Enrich(m, noise)))
  }

  /**
   * Row i of a finished analysis is merged pair i with its own noise draw and
   * the metrics of that pair, its score is entry i of the batch's scores (in
   * [0, 1], undefined exactly when its rejection rate or its centers per 10k
   * is), and its status is the status of that score.
   */
  lemma RunRows(census: seq<CensusRow>, divisors: seq<Divisor>, logs: seq<LogRow>, noise: seq<Noise>, i: int)
    requires |divisors| == |census|
    requires |noise| == |Merge(Project(census, divisors), logs)|
    requires Run(census, divisors, logs, noise).Done?
    requires 0 <= i < |Run(census, divisors, logs, noise).rows|
    ensures Run(census, divisors, logs, noise).rows[i].region.census in Project(census, divisors)
    ensures Run(census, divisors, logs, noise).rows[i].region.log in logs
    ensures CensusKey(Run(census, divisors, logs, noise).rows[i].region.census) == LogKey(Run(census, divisors, logs, noise).rows[i].region.log)
    ensures var x := Run(census, divisors, logs, noise).rows[i];
            && (x.score.Some? <==> x.region.rejectionRate.Some? && x.region.centersPer10k.Some?)
            && (x.score.Some? ==> 0.0 <= x.score.value <= 1.0)
            && x.status == Classify(x.score)
    ensures var m := Merge(Project(census, divisors), logs);
            Run(census, divisors, logs, noise).rows[i].region == RegionOf(m[i].0, m[i].1.0, m[i].1.1, noise[i])
    ensures Run(census, divisors, logs, noise).rows[i].score == Scores(Enrich(Merge(Project(census, divisors), logs), noise))[i]
  {
    var ps := Project(census, divisors);
    var m := Merge(ps, logs);
    MergeRows(ps, logs, i);
    var rs := Enrich(m, noise);
    assert Run(census, divisors, logs, noise).rows == ScoreAll(rs);
  }
}
