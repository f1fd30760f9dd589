# Aadhaar service analytics, modelled in Dafny

This project models two pieces of logic from the Aadhaar analytics repository.

1. **The district stress index (ASISI).** This is `run_asisi_analysis` in `hola/asisi.py`. It takes two batches:
   - census rows, which are projected to 2025, with service centres estimated from the projection;
   - service-log rows.

   The two batches are merged on the district name, lower-cased and stripped. Each merged district gets four metrics:
   - a weighted transaction load;
   - a rejection rate, driven by its rural share of households;
   - a recovery slope, the least-squares trend of seven days of load;
   - its centres per 10k people.

   Each metric is min-max scaled across the batch, and the saturation series is inverted. The four series are combined with weights 0.35 / 0.25 / 0.25 / 0.15 into a score. Lastly, `get_status` classifies the score as critical, warning or stable.
2. **The nine ranking scripts in `Aadhaar/`.** Each one is a composition of a few table operations on integer counts:
   - a group-by-key sum;
   - an inner join, or a left join with zero fill;
   - a derived column, either a difference or `num / (den + 1)`;
   - a threshold filter;
   - "sort descending, keep the first N".

   The keys are PIN codes, (state, district) pairs or (PIN code, month) pairs.

The model has these modules:
- `Tables` holds generic versions of the table operations. Each one is specified by what the result means:
  - which keys it has;
  - which total each key carries;
  - that it is drawn from its input;
  - that it is ordered;
  - that no excluded row beats a kept one.
- One module per script (`LateAdopters`, `BiometricFriction`, `MigrantHubs`, `WorkforceMagnet`, `DemographicDrift`, `InvisibleChild`, `NeonatalGap`, `PhantomCluster`, `SchoolPulse`) composes the `Tables` operations with that script's own constants.
- `Asisi` holds the stress-index pipeline. It relies on:
  - `DistrictKeys` for the merge key;
  - `LeastSquares` for `np.polyfit(days, loads, 1)` in closed form, tied to the normal equations;
  - `MinMax` for `MinMaxScaler` on one column.
- `Options` holds the `Option` type.

All the logic is pure, with no loops of its own, so everything is modelled as functions and lemmas.

The model represents values as follows:
- Counts are `nat`.
- Ratios, scores and the slope are exact `real`s.
- A value the source computes as NaN (a 0 / 0 ratio) is `None`.

Random draws become inputs:
- the centre divisor, `Divisor`, in [18000, 22000);
- the rejection noise, `Noise`, in [0, 0.02);
- the authentication volume and the load history, as fields of `LogRow`;
- the hospital table, as an argument of `NeonatalGap`.

## Model

| member | source | states |
|---|---|---|
| Tables.AddTo | Aadhaar/late.py:21 | adding (k, v) to a grouped table keeps its keys distinct, adds k to its keys, adds v to its total and to k's sum only |
| Tables.GroupSum | Aadhaar/late.py:21 | the grouped table has each input key exactly once, no other key, each key's sum equal to the input's sum for that key, and the same grand total |
| Tables.GroupSumRows | Aadhaar/migrant_hubs.py:17 | every grouped row carries its key's input total, and every input key has such a row |
| Tables.GroupSumWhere | Aadhaar/phantom_cluster.py:28-31 | grouping does not change the sum of the rows over any set of keys |
| Tables.CountWhereKeys | Aadhaar/phantom_cluster.py:31 | in a table with distinct keys, the rows whose key meets a property number as many as those keys |
| Tables.TotalsRow | Aadhaar/invisible_child.py:27 | a row of a grouped table holds a key of the input and that key's total |
| Tables.KeysMembership | Aadhaar/late.py:21 | a key is in a table exactly when some row carries it |
| Tables.DistinctKeysCount | Aadhaar/late.py:21 | a table with distinct keys has as many rows as keys |
| Tables.SumForDistinct | Aadhaar/late.py:21 | in a table with distinct keys, a key's sum is the value of its one row |
| Tables.SumForConcat | Aadhaar/school_pulse.py:30 | a key's sum over a concatenation is the sum of its sums over the parts |
| Tables.SumForAbsent | Aadhaar/late.py:21 | a key absent from a table sums to 0 |
| Tables.SumForAt | Aadhaar/late.py:21 | in a table with distinct keys, each row holds its key's sum |
| Tables.TotalConcat | Aadhaar/school_pulse.py:30 | the grand total of a concatenation is the sum of the parts' totals |
| Tables.KeysOfConcat | Aadhaar/school_pulse.py:30 | the keys of a concatenation are the keys of its parts together |
| Tables.Matches | Aadhaar/migrant_hubs.py:32 | the rows one left row contributes to an inner join are exactly its pairings with right rows of the same key |
| Tables.MatchesCount | Aadhaar/migrant_hubs.py:32 | one left row yields each pairing as many times as the matching right row occurs, and nothing with another key or left value |
| Tables.InnerJoin | Aadhaar/migrant_hubs.py:32 | (k, (a, b)) is a joined row exactly when (k, a) is a left row and (k, b) a right row; how often is `Tables.InnerJoinCount` |
| Tables.InnerJoinCount | Aadhaar/migrant_hubs.py:32 | the join is the cartesian product key by key: (k, (a, b)) occurs as often as (k, a) occurs on the left times as often as (k, b) occurs on the right |
| Tables.InnerJoinKeys | Aadhaar/demogrphic_drift.py:26 | the join keeps exactly the keys common to both tables |
| Tables.InnerJoinDistinct | Aadhaar/workforce_magnet.py:19 | joining two tables with distinct keys gives distinct keys and one row per common key |
| Tables.JoinTotals | Aadhaar/invisible_child.py:27-42 | grouping both tables and joining them gives one row per key common to both, holding that key's two totals, and no other row |
| Tables.JoinTotalsSound | Aadhaar/invisible_child.py:27-42 | every row of the joined totals is a common key with its two totals |
| Tables.JoinTotalsComplete | Aadhaar/invisible_child.py:27-42 | every key common to both inputs has its row of two totals in the join |
| Tables.JoinTotalsShape | Aadhaar/invisible_child.py:27-42 | the joined totals have distinct keys, exactly the keys common to both inputs |
| Tables.LeftRows | Aadhaar/neonatal_gap.py:30 | one left row is paired with every right row of its key, or with 0 when the right table lacks the key |
| Tables.LeftRowsCount | Aadhaar/neonatal_gap.py:30 | one left row yields each pairing as often as the right row occurs, or the 0-filled row exactly once when the key is missing on the right |
| Tables.LeftJoin0 | Aadhaar/neonatal_gap.py:30 | the left join with zero fill keeps every left key, and (k, (a, b)) is a row exactly when (k, a) is a left row and b is a right value for k, or 0 when k has none; how often is `Tables.LeftJoin0Count` |
| Tables.LeftJoin0Count | Aadhaar/neonatal_gap.py:30 | (k, (a, b)) occurs as often as (k, a) occurs on the left times as often as (k, b) occurs on the right, or times one for the 0-filled row of a key the right lacks |
| Tables.LeftJoin0At | Aadhaar/neonatal_gap.py:30 | each joined row pairs a left row with a right row of its key, or with 0 when the right table lacks the key |
| Tables.LeftJoin0Has | Aadhaar/neonatal_gap.py:30 | every pairing the left join promises occurs at some row |
| Tables.LeftJoin0Distinct | Aadhaar/neonatal_gap.py:30 | against a right table with distinct keys, the left join is the left table row for row, with the right value or 0 attached |
| Tables.Filter | Aadhaar/school_pulse.py:19 | the mask keeps each row that passes as often as it occurs and drops every other row |
| Tables.SortDesc | Aadhaar/late.py:24 | sorting gives a non-increasing permutation of the input |
| Tables.Insert | Aadhaar/late.py:24 | inserting into a non-increasing sequence adds exactly that row and keeps it non-increasing |
| Tables.TopN | Aadhaar/late.py:24 | `sort_values(..., ascending=False).head(n)` has min(n, length) rows drawn from the input (as a sub-multiset), in non-increasing order |
| Tables.TopNMembers | Aadhaar/late.py:24 | every kept row is an input row |
| Tables.TopNExcluded | Aadhaar/late.py:24 | an input row that is not kept scores at most every kept row |
| Tables.TopNExcludedAll | Aadhaar/late.py:24 | no input row left out scores above any kept row |
| Tables.TopNComplete | Aadhaar/late.py:24 | an input of at most n rows is kept whole |
| Tables.TopNHead | Aadhaar/biometric_friction.py:25 | the first kept row is the best-scoring row of the whole input |
| Tables.TopWhere | Aadhaar/workforce_magnet.py:25-28 | filter then rank: at most n rows, all passing the filter and drawn from the input, non-increasing, no excluded passing row above any kept one, and every passing row kept when fewer than n are |
| Tables.TopWhereExcluded | Aadhaar/workforce_magnet.py:25-28 | no passing row left out scores above any kept row |
| Tables.TopWhereComplete | Aadhaar/workforce_magnet.py:25-28 | when fewer than n rows are kept, every passing row is kept |
| Tables.TopWhereHead | Aadhaar/phantom_cluster.py:43-51 | the first row of a filtered ranking scores at least every row that passes the filter |
| Tables.SubMultisetDistinctOn | Aadhaar/migrant_hubs.py:39 | a selection of rows with distinct keys has distinct keys |
| Tables.RankTotals | Aadhaar/biometric_friction.py:22-25 | group then rank: min(n, number of keys) rows, one per key, each holding its key's total, non-increasing, and no key left out has a total above a kept one |
| Tables.RankedRowsAreTotals | Aadhaar/biometric_friction.py:22-25 | every row kept from a grouped table is an input key with its total |
| Tables.RankedExcludedAll | Aadhaar/biometric_friction.py:22-25 | no key left out of the ranking has a total above a kept row |
| Tables.Ratio | Aadhaar/migrant_hubs.py:35-36 | `num / (den + 1)` is defined for every count, lies in [0, num], times (den + 1) gives num back, and is positive exactly when num is |
| Tables.RatioMonotone | Aadhaar/migrant_hubs.py:36 | the ratio grows with the numerator and shrinks as the denominator grows |
| Tables.DivideMore | hola/asisi.py:140 | proof helper for `MinMax.ScaleMonotone` and `Tables.RatioMonotone`, no behaviour of its own: a larger numerator over the same positive divisor gives the larger quotient |
| Tables.DivideByMore | Aadhaar/migrant_hubs.py:36 | proof helper for `Tables.RatioMonotone`, no behaviour of its own: a non-negative numerator over a larger divisor gives the smaller quotient |
| Tables.WithRatio | Aadhaar/workforce_magnet.py:22 | the ratio column is added row by row, each row's ratio computed from its own two totals |
| Tables.RatioJoin | Aadhaar/migrant_hubs.py:17-36 | grouped, joined and ratioed, the table has exactly one row per common key, holding its two totals and their ratio |
| Tables.RatioJoinMembers | Aadhaar/migrant_hubs.py:17-36 | a row is in the ratio table exactly when it is a common key with its two totals and their ratio |
| Tables.RatioJoinShape | Aadhaar/migrant_hubs.py:32-36 | the ratio table has distinct keys and one row per common key |
| LateAdopters.TopLateAdopters | Aadhaar/late.py:21-24 | the 15 PIN codes with the most adult enrolments: min(15, number of PINs) rows, one per PIN, each with its total, non-increasing, no PIN left out with a larger total |
| BiometricFriction.TopFriction | Aadhaar/biometric_friction.py:22-25 | the same for the 10 (state, district) pairs with the most adult biometric updates |
| MigrantHubs.TopHubs | Aadhaar/migrant_hubs.py:17-39 | the 10 PINs present in both tables with the highest ratio: min(10, common PINs) rows, each a true merged row, one per PIN, non-increasing, no merged row left out with a higher ratio |
| MigrantHubs.HubsExcluded | Aadhaar/migrant_hubs.py:39 | no merged row left out of the top 10 has a ratio above a kept one |
| WorkforceMagnet.TopMagnets | Aadhaar/workforce_magnet.py:11-28 | the top 10 among merged PINs with more than 1000 updates: every kept row is such a merged row, one per PIN, non-increasing, no qualifying row left out with a higher score, all qualifying rows kept when fewer than 10 are |
| WorkforceMagnet.SignificantExcluded | Aadhaar/workforce_magnet.py:25-28 | no qualifying row left out has a higher score than a kept one |
| WorkforceMagnet.SignificantExcludedAt | Aadhaar/workforce_magnet.py:25-28 | a merged PIN with more than 1000 updates that is left out has a score at most every kept one |
| WorkforceMagnet.SignificantComplete | Aadhaar/workforce_magnet.py:25-28 | when fewer than 10 rows are kept, every qualifying row is kept |
| WorkforceMagnet.Significant | Aadhaar/workforce_magnet.py:25 | more than 1000 demographic updates; `WorkforceMagnet.TopMagnets` ranks exactly the merged rows that meet it |
| DemographicDrift.TransientZones | Aadhaar/demogrphic_drift.py:15-36 | the top 10 among merged PINs with more than 100 adult updates, by drift score, with the same guarantees as the magnet list |
| DemographicDrift.SignificantExcluded | Aadhaar/demogrphic_drift.py:33-36 | no qualifying row left out has a higher drift score than a kept one |
| DemographicDrift.SignificantExcludedAt | Aadhaar/demogrphic_drift.py:33-36 | a merged PIN with more than 100 adult updates that is left out has a drift score at most every kept one |
| DemographicDrift.SignificantComplete | Aadhaar/demogrphic_drift.py:33-36 | when fewer than 10 rows are kept, every qualifying row is kept |
| DemographicDrift.Significant | Aadhaar/demogrphic_drift.py:33 | more than 100 adult demographic updates; `DemographicDrift.TransientZones` ranks exactly the merged rows that meet it |
| InvisibleChild.WithGap | Aadhaar/invisible_child.py:46 | the gap column is enrolments minus updates, as an integer, row by row |
| InvisibleChild.GapTable | Aadhaar/invisible_child.py:27-46 | the merged table has exactly one row per (state, district) pair in both tables, holding its two totals and their difference |
| InvisibleChild.GapTableMembers | Aadhaar/invisible_child.py:42-46 | a row is in the merged table exactly when it is the row of a common pair |
| InvisibleChild.GapTableMemberAt | Aadhaar/invisible_child.py:42-46 | one row is merged exactly when it is the row of a common pair |
| InvisibleChild.GapRowSound | Aadhaar/invisible_child.py:42-46 | every merged row is a common pair with its two totals and their difference |
| InvisibleChild.GapRowComplete | Aadhaar/invisible_child.py:42-46 | every common pair with its two totals and their difference is a merged row |
| InvisibleChild.GapTableShape | Aadhaar/invisible_child.py:42-46 | the merged table has one row per common pair, pairs distinct |
| InvisibleChild.RedFlags | Aadhaar/invisible_child.py:49 | at most 10 rows, each a merged row with a positive gap, one per pair, non-increasing gaps, no positive-gap row left out with a larger gap, all kept when fewer than 10 |
| InvisibleChild.RedFlagsMembers | Aadhaar/invisible_child.py:49 | every red flag is a merged row with a positive gap, one per pair |
| InvisibleChild.RedFlagsExcludedAt | Aadhaar/invisible_child.py:49 | a positive-gap row left out has a gap at most every kept one |
| InvisibleChild.RedFlagsExcluded | Aadhaar/invisible_child.py:49 | no positive-gap row left out has a gap above a kept one |
| InvisibleChild.RedFlagsComplete | Aadhaar/invisible_child.py:49 | when fewer than 10 rows are kept, every positive-gap row is kept |
| InvisibleChild.PositiveGap | Aadhaar/invisible_child.py:49 | a positive gap; `InvisibleChild.RedFlags` ranks exactly the merged rows that meet it, and `InvisibleChild.GapMayBeNegative` shows one that does not |
| InvisibleChild.GapMayBeNegative | Aadhaar/invisible_child.py:46-49 | a district with 2 enrolments and 5 updates has gap -3 and is no red flag |
| InvisibleChild.StatesKeptApart | Aadhaar/invisible_child.py:27-42 | the same district name in two states gives two rows with their own totals and gaps |
| NeonatalGap.ToZones | Aadhaar/neonatal_gap.py:30 | each joined row becomes a zone with the PIN, the infant total and the hospital count |
| NeonatalGap.ZoneTable | Aadhaar/neonatal_gap.py:16-30 | a zone is in the merged table exactly when its PIN is enrolled, it carries the PIN's infant total, and it holds one of the PIN's hospital counts, or 0 when the hospital table lacks the PIN |
| NeonatalGap.ZoneTableMembers | Aadhaar/neonatal_gap.py:16-30 | a zone is in the merged table exactly when it is an enrolled PIN with its infant total and a hospital count of that PIN, or 0 without one |
| NeonatalGap.ZoneSound | Aadhaar/neonatal_gap.py:30 | every merged zone is such a zone |
| NeonatalGap.ZoneComplete | Aadhaar/neonatal_gap.py:30 | every such zone is merged |
| NeonatalGap.ZoneTableDistinct | Aadhaar/neonatal_gap.py:30 | with one hospital row per PIN, the merged table has one row per enrolled PIN, carrying that PIN's hospital count |
| NeonatalGap.TopRiskZones | Aadhaar/neonatal_gap.py:32-34 | at most 10 zones, each with more than 500 infants and 0 hospitals, non-increasing in infants, no risk zone left out with more infants, all kept when fewer than 10, and one per PIN when the hospital table has one row per PIN |
| NeonatalGap.RiskDistinct | Aadhaar/neonatal_gap.py:34 | with one hospital row per PIN, the risk list names each PIN at most once |
| NeonatalGap.RiskExcludedAt | Aadhaar/neonatal_gap.py:33-34 | a risk zone left out has at most as many infants as every kept one |
| NeonatalGap.RiskExcluded | Aadhaar/neonatal_gap.py:33-34 | no risk zone left out has more infants than a kept one |
| NeonatalGap.RiskComplete | Aadhaar/neonatal_gap.py:33-34 | when fewer than 10 zones are kept, every risk zone is kept |
| NeonatalGap.MissingPinIsRisk | Aadhaar/neonatal_gap.py:30-34 | a PIN missing from the hospital table whose 600 infants come from two rows is reported as the only risk zone |
| NeonatalGap.AtRisk | Aadhaar/neonatal_gap.py:33 | more than 500 infants and no hospital; `NeonatalGap.TopRiskZones` ranks exactly such zones, and `NeonatalGap.HospitalPinNeverAtRisk` and `NeonatalGap.MissingPinIsRisk` show both sides of the rule |
| NeonatalGap.HospitalPinNeverAtRisk | Aadhaar/neonatal_gap.py:30-34 | with one hospital row per PIN, a PIN whose hospital count is positive is never among the risk zones |
| NeonatalGap.HospitalPinNoRisk | Aadhaar/neonatal_gap.py:33 | an example: a PIN of 600 infants with one hospital is not reported |
| PhantomCluster.Analysis | Aadhaar/phantom_cluster.py:35 | every monthly row is paired with its PIN's baseline |
| PhantomCluster.AnalysisTable | Aadhaar/phantom_cluster.py:28-35 | the analysis table has exactly one row per (PIN, month) of the input, holding that month's total and the PIN's baseline |
| PhantomCluster.AnalysisMembers | Aadhaar/phantom_cluster.py:28-35 | a row is in the analysis table exactly when it is an input (PIN, month) with that month's total and the PIN's baseline |
| PhantomCluster.AnalysisShape | Aadhaar/phantom_cluster.py:28-35 | the analysis table has one row per input (PIN, month), keys distinct |
| PhantomCluster.PinMonthsKeys | Aadhaar/phantom_cluster.py:31 | the number of monthly rows of a PIN is the number of its distinct months |
| PhantomCluster.Baseline | Aadhaar/phantom_cluster.py:31 | the per-PIN mean of the monthly totals; specified by `PhantomCluster.BaselineIsMean` and `PhantomCluster.PinMonthsKeys` |
| PhantomCluster.Flagged | Aadhaar/phantom_cluster.py:39-40 | an average above 50 and a month above five times it; its consequences are `PhantomCluster.FlaggedNeedsSixMonths` and `PhantomCluster.SingleMonthNeverFlagged`, and `PhantomCluster.TopClusters` ranks exactly the flagged rows |
| PhantomCluster.BaselineIsMean | Aadhaar/phantom_cluster.py:31 | the baseline is the PIN's raw total over the number of its distinct months |
| PhantomCluster.FlaggedNeedsSixMonths | Aadhaar/phantom_cluster.py:39-40 | a flagged month belongs to a PIN with at least six months of data |
| PhantomCluster.SixMonths | Aadhaar/phantom_cluster.py:40 | an average above 50 that a month exceeds five-fold, with the month part of the average, needs more than five months |
| PhantomCluster.SingleMonthNeverFlagged | Aadhaar/phantom_cluster.py:31-40 | a PIN with fewer than six months, and in particular a single month, is never flagged |
| PhantomCluster.TopClusters | Aadhaar/phantom_cluster.py:39-43 | at most 5 rows, each a flagged analysis row, one per (PIN, month), non-increasing in updates, no flagged row left out with more updates, all kept when fewer than 5 |
| PhantomCluster.ClustersExcluded | Aadhaar/phantom_cluster.py:43 | no flagged row left out has more updates than a kept one |
| PhantomCluster.ClustersExcludedAt | Aadhaar/phantom_cluster.py:43 | a flagged row left out has at most as many updates as every kept one |
| PhantomCluster.ClustersComplete | Aadhaar/phantom_cluster.py:43 | when fewer than 5 rows are kept, every flagged row is kept |
| PhantomCluster.TargetPin | Aadhaar/phantom_cluster.py:49-51 | there is no target exactly when no month is flagged, and otherwise it is the PIN of a flagged month with the most updates |
| PhantomCluster.TargetIsWorst | Aadhaar/phantom_cluster.py:51 | the first alert row is a flagged month with at least as many updates as every flagged month |
| PhantomCluster.PinHistory | Aadhaar/phantom_cluster.py:54 | the target's chart data holds exactly its months, one row each, with each month's total |
| PhantomCluster.HistoryRows | Aadhaar/phantom_cluster.py:54 | the rows kept for a PIN are exactly its months, each with its total |
| SchoolPulse.MonthColumn | Aadhaar/school_pulse.py:26-30 | the (month, updates) columns of the rows, row by row |
| SchoolPulse.MonthlyTrend | Aadhaar/school_pulse.py:19-30 | one row per month with a Gujarat row and no other month, each month's total equal to the Gujarat updates of that month, and the trend adding up to all Gujarat updates |
| SchoolPulse.TrendSum | Aadhaar/school_pulse.py:26-30 | a month's total over the filtered rows is the Gujarat updates of that month |
| SchoolPulse.TrendTotal | Aadhaar/school_pulse.py:30 | the filtered rows add up to all Gujarat updates |
| SchoolPulse.TrendKeys | Aadhaar/school_pulse.py:30 | a month occurs exactly when some Gujarat row has that month |
| SchoolPulse.TrendKeyHasRow | Aadhaar/school_pulse.py:30 | every month in the trend comes from a Gujarat row |
| SchoolPulse.TrendRowHasKey | Aadhaar/school_pulse.py:30 | every Gujarat row's month is in the trend |
| SchoolPulse.InTrackedState | Aadhaar/school_pulse.py:19 | the row's state is Gujarat; `SchoolPulse.MonthlyTrend` counts exactly such rows, and `SchoolPulse.OtherStateIgnored` shows that other rows change nothing |
| SchoolPulse.OtherStateIgnored | Aadhaar/school_pulse.py:19 | a row of another state leaves the trend exactly as it was |
| SchoolPulse.SameMonthAdds | Aadhaar/school_pulse.py:19-30 | two Gujarat rows of one month add up, and a row of another state in between counts nothing |
| DistrictKeys.LowerChar | hola/asisi.py:96 | the lower case of a character is never a capital; a capital becomes the letter at the same place in 'a'..'z', and every other character is left alone |
| DistrictKeys.LowerSpace | hola/asisi.py:96 | lower-casing neither makes nor removes white space |
| DistrictKeys.LowerBlank | hola/asisi.py:96 | a string of white space lower-cases to itself |
| DistrictKeys.Lower | hola/asisi.py:96 | `str.lower()` keeps the length and lower-cases character by character |
| DistrictKeys.LeadingSpace | hola/asisi.py:96 | counts the longest white-space prefix |
| DistrictKeys.TrailingSpace | hola/asisi.py:96 | counts the longest white-space suffix |
| DistrictKeys.StripStart | hola/asisi.py:96 | the result is the suffix left after removing white space only, and it does not start with white space |
| DistrictKeys.StripEnd | hola/asisi.py:96 | the result is the prefix left after removing white space only, and it does not end with white space |
| DistrictKeys.Strip | hola/asisi.py:96 | `str.strip()` gives a slice of the input that neither starts nor ends with white space |
| DistrictKeys.StripBlank | hola/asisi.py:96 | stripping leaves nothing exactly when the string is all white space |
| DistrictKeys.StripNormal | hola/asisi.py:96 | stripping a string without white space at its ends changes nothing |
| DistrictKeys.StripLeft | hola/asisi.py:96 | leading white space does not change the stripped string |
| DistrictKeys.StripEndPad | hola/asisi.py:96 | trailing white space does not change the right-stripped string |
| DistrictKeys.StripRight | hola/asisi.py:96 | trailing white space does not change the stripped string |
| DistrictKeys.LowerNormal | hola/asisi.py:96 | lower-casing a string without capitals changes nothing |
| DistrictKeys.Key | hola/asisi.py:96-97 | `str.lower().str.strip()`; specified by `DistrictKeys.KeyIsNormal`, `DistrictKeys.KeyIdempotent`, `DistrictKeys.KeyIgnoresCase` and `DistrictKeys.KeyIgnoresPadding` |
| DistrictKeys.KeyIsNormal | hola/asisi.py:96-97 | a key has no capital letter and no white space at either end |
| DistrictKeys.KeyIdempotent | hola/asisi.py:96-97 | normalising a key again gives the same key |
| DistrictKeys.KeyIgnoresCase | hola/asisi.py:96-98 | names that differ only in letter case have the same key, so they merge |
| DistrictKeys.KeyIgnoresPadding | hola/asisi.py:96-98 | white space around a name does not change its key, so it does not stop the merge |
| LeastSquares.MomentsClosed | hola/asisi.py:123 | after k samples the count is k, the day sum is k(k-1)/2 and the sum of squared days is (k-1)k(2k-1)/6 |
| LeastSquares.SpreadPositive | hola/asisi.py:122-126 | with two samples or more the slope's denominator is positive, so the fit is defined |
| LeastSquares.ResidualSums | hola/asisi.py:126 | the residual sums of any line are determined by the history's moments |
| LeastSquares.FitSolves | hola/asisi.py:126 | the closed-form slope and intercept solve both normal equations |
| LeastSquares.FitOnly | hola/asisi.py:126 | no other line solves the normal equations of moments with positive spread |
| LeastSquares.ResidualsDetermined | hola/asisi.py:126 | a line has one pair of residual sums over a history |
| LeastSquares.NormalEquations | hola/asisi.py:126 | the fitted line's residuals sum to zero and are orthogonal to the day index |
| LeastSquares.Slope | hola/asisi.py:126 | the closed-form slope of `np.polyfit(days, loads, 1)`; specified by `LeastSquares.NormalEquations` and `LeastSquares.FitUnique` (the unique solution of the normal equations) |
| LeastSquares.FitUnique | hola/asisi.py:126 | any line whose residuals sum to zero and are orthogonal to the day index is the fitted line |
| LeastSquares.LinearResiduals | hola/asisi.py:126 | a history on the line a + d·i leaves zero residuals against it |
| LeastSquares.LinearSlope | hola/asisi.py:122-127 | a history a + d·i is fitted with slope exactly d and intercept a |
| LeastSquares.ConstantSlope | hola/asisi.py:122-127 | a constant history is fitted with slope 0 |
| LeastSquares.Shift | hola/asisi.py:124 | every day's load moved by the same amount |
| LeastSquares.ShiftResiduals | hola/asisi.py:126 | shifted loads against the shifted line leave the original residuals |
| LeastSquares.ShiftSlope | hola/asisi.py:122-127 | adding the same load to every day leaves the slope unchanged and raises the intercept by that load |
| LeastSquares.SlopeSign | hola/asisi.py:119-127 | the slope is positive or negative exactly when day and load covary positively or negatively |
| MinMax.MinUpToSpec | hola/asisi.py:140 | the running minimum is undefined only on an all-NaN prefix, is attained and bounds the prefix below |
| MinMax.MaxUpToSpec | hola/asisi.py:140 | the running maximum is undefined only on an all-NaN prefix, is attained and bounds the prefix above |
| MinMax.MinOfSpec | hola/asisi.py:140 | the batch minimum ignores NaN, is undefined only for an all-NaN batch, is attained and bounds every value |
| MinMax.MaxOfSpec | hola/asisi.py:140 | the batch maximum ignores NaN, is undefined only for an all-NaN batch, is attained and bounds every value |
| MinMax.Scale | hola/asisi.py:136-146 | scaling keeps the length and the NaN positions, puts every value in [0, 1] and preserves the order of the values |
| MinMax.ScaleBounds | hola/asisi.py:136-146 | scaled against the batch range, every defined value lies in [0, 1] and the order of the values is kept |
| MinMax.ScaleValue | hola/asisi.py:140-149 | the scaler's (v - min) / (max - min), 0 for a zero range; specified by `MinMax.UnitRange`, `MinMax.ScaleMonotone`, `MinMax.LowScalesToZero` and `MinMax.HighScalesToOne` |
| MinMax.UnitRange | hola/asisi.py:140 | proof step of `MinMax.Scale`: a value inside [lo, hi] scales into [0, 1] |
| MinMax.QuotientAtMostOne | hola/asisi.py:140 | proof helper for `MinMax.UnitRange`, no behaviour of its own: a value between 0 and the range, over the range, lies in [0, 1] |
| MinMax.ScaleMonotone | hola/asisi.py:140 | scaling against a fixed range never reverses two values |
| MinMax.ScaleAt | hola/asisi.py:140 | a defined entry is scaled against the batch's own minimum and maximum |
| MinMax.ScaleEndpoints | hola/asisi.py:140 | the batch minimum scales to 0, and the maximum to 1 unless all values are equal |
| MinMax.LowScalesToZero | hola/asisi.py:140 | the bottom of the range scales to 0 |
| MinMax.HighScalesToOne | hola/asisi.py:140 | the top of a non-degenerate range scales to 1 |
| MinMax.ScaleConstant | hola/asisi.py:140 | a batch whose values are all equal scales to all zeros |
| MinMax.ScaleStrict | hola/asisi.py:140 | two distinct values keep their strict order after scaling |
| MinMax.QuotientStrict | hola/asisi.py:140 | proof helper for `MinMax.ScaleStrict`, no behaviour of its own: dividing by a positive range keeps a strict order |
| MinMax.ScalePair | hola/asisi.py:140 | two different values scale to 0 (the smaller) and 1 (the larger) |
| MinMax.Affine | hola/asisi.py:140 | a change of unit per defined entry, NaN staying NaN |
| MinMax.ScaleAffine | hola/asisi.py:136-146 | scaling is unchanged by a positive change of unit v ↦ a·v + b, so it depends only on the relative positions of the values |
| MinMax.ScaleAffineAt | hola/asisi.py:140 | each entry scales the same before and after a positive change of unit |
| MinMax.AffineMin | hola/asisi.py:140 | a positive change of unit moves the batch minimum with it |
| MinMax.AffineMax | hola/asisi.py:140 | a positive change of unit moves the batch maximum with it |
| Asisi.GrowthBounds | hola/asisi.py:86-87 | the growth factor `Growth`, 1.012^14, lies strictly between 1.18 and 1.19 |
| Asisi.Pop2025 | hola/asisi.py:87-88 | the projection is the truncation of population × 1.012^14: at least the 2011 population and at most 1.19 times it |
| Asisi.EstCenters | hola/asisi.py:91-92 | the estimate is the integer quotient of the projection by the divisor, and 0 below 18000 people |
| Asisi.ProjectRow | hola/asisi.py:87-92 | a projected row keeps its census row and divisor, never loses population, and promises no more centres than the divisor allows |
| Asisi.Project | hola/asisi.py:85-92 | the census table is projected row by row, each row with its own divisor draw |
| Asisi.CensusKeyed | hola/asisi.py:96 | each census row is keyed by its normalised district name |
| Asisi.LogKeyed | hola/asisi.py:97 | each log row is keyed by its normalised district name |
| Asisi.Merge | hola/asisi.py:98 | the inner merge on the key; specified by `Asisi.MergeMembers` (membership), `Asisi.MergeRows` (each row's pair shares its key) `Asisi.MergeCount` (one row per common name) and `Asisi.MergeMultiplicity` (how often each pair occurs) |
| Asisi.KeyedMember | hola/asisi.py:96-97 | a (key, row) pair is in a keyed table exactly when the row is in the table and the key is its own |
| Asisi.MergeMembers | hola/asisi.py:96-98 | a census row and a log row are merged exactly when both are present and their normalised district names agree; states play no part |
| Asisi.MergeRows | hola/asisi.py:98 | every merged row pairs a census row and a log row that share its key |
| Asisi.KeyedCount | hola/asisi.py:96-97 | a table keyed by a key function holds (k, v) as often as v occurs, when k is v's key, and never otherwise |
| Asisi.MergeMultiplicity | hola/asisi.py:96-98 | the merge pairs a census row and a log row with the same key as many times as the one occurs times the other, and never pairs rows whose keys differ |
| Asisi.MergeCount | hola/asisi.py:98 | with names unique on each side, there is one merged row per name common to both |
| Asisi.WeightedLoad | hola/asisi.py:105-110 | the weighted load is non-negative and at least the enrolment count |
| Asisi.WeightedLoadMonotone | hola/asisi.py:105-110 | more of any transaction never lowers the load, and the load is unchanged only when no count changes |
| Asisi.RuralRatio | hola/asisi.py:114 | the rural share is undefined exactly when there are no households; otherwise it is in [0, 1], 0 exactly without rural households and 1 exactly without urban ones |
| Asisi.RejectionRate | hola/asisi.py:114-116 | the rejection rate is undefined exactly when there are no households, and otherwise lies in [0.03, 0.10) |
| Asisi.RejectionMonotone | hola/asisi.py:114-116 | with the same noise, a larger rural share never gets the lower rejection rate |
| Asisi.AsReals | hola/asisi.py:123-124 | the history as reals, day by day |
| Asisi.RecoverySlope | hola/asisi.py:122-127 | `get_slope`; specified by `Asisi.RecoverySlopeFits` (the unique least-squares slope), `Asisi.LinearHistory`, `Asisi.FlatHistory` and `Asisi.BacklogSign` |
| Asisi.RecoverySlopeFits | hola/asisi.py:122-127 | the recovery slope is the least-squares slope: its line solves the normal equations, and so does no line with another slope |
| Asisi.LinearHistory | hola/asisi.py:119-127 | a history growing by exactly d a day has recovery slope d |
| Asisi.FlatHistory | hola/asisi.py:119-127 | a flat history has recovery slope 0 |
| Asisi.BacklogSign | hola/asisi.py:118-121 | the backlog is building (slope > 0) or clearing (slope < 0) exactly when day and load covary that way |
| Asisi.CentersPer10k | hola/asisi.py:132 | undefined exactly for a district with no projected population, otherwise non-negative |
| Asisi.CentersBound | hola/asisi.py:132 | with centres estimated from the projection, a district has at most 10000/18000 centres per 10k people |
| Asisi.RatioBound | hola/asisi.py:132 | proof helper for `Asisi.CentersBound`, no behaviour of its own: at most one centre per 18000 people keeps the rate per 10k at or below 10000/18000 |
| Asisi.RegionOf | hola/asisi.py:105-132 | a merged district gets the four metrics of its own rows and noise draw |
| Asisi.Enrich | hola/asisi.py:105-132 | the metric columns are added to the merged table row by row |
| Asisi.Loads | hola/asisi.py:140 | the weighted-load series of the batch |
| Asisi.Rejections | hola/asisi.py:143 | the rejection-rate series of the batch, NaN kept |
| Asisi.Slopes | hola/asisi.py:146 | the recovery-slope series of the batch |
| Asisi.Centers | hola/asisi.py:149 | the centres-per-10k series of the batch, NaN kept |
| Asisi.Invert | hola/asisi.py:149 | `1 - scaled` is defined exactly when the scaled value is |
| Asisi.Composite | hola/asisi.py:158-163 | with all four components in [0, 1], the score is in [0, 1] |
| Asisi.CompositeUniform | hola/asisi.py:151-163 | the weights 0.35, 0.25, 0.25, 0.15 sum to 1, so four equal components score their common value |
| Asisi.CompositeMonotone | hola/asisi.py:158-163 | the score never falls when a component grows, and rises when one grows strictly |
| Asisi.Combine | hola/asisi.py:158-163 | the score is defined exactly when all four scaled entries are, and then it is their weighted sum |
| Asisi.Scores | hola/asisi.py:136-163 | one score per district, defined exactly when its rejection rate and its centres per 10k are, and always in [0, 1] |
| Asisi.ScoreAt | hola/asisi.py:136-163 | a district's score combines its four batch-scaled entries, the saturation one inverted |
| Asisi.SaturationOrder | hola/asisi.py:132-149 | a district with more centres per 10k never has the higher saturation stress, and both stresses lie in [0, 1] |
| Asisi.DominanceOrder | hola/asisi.py:136-163 | a district at least as stressed on every metric scores at least as high |
| Asisi.SingleRegion | hola/asisi.py:136-169 | a batch of one district scales every series to 0, so it scores 0.15 and is stable |
| Asisi.TwoRegions | hola/asisi.py:136-169 | of two districts, one worse on every metric, the better one scores 0 (stable) and the worse one 1 (critical) |
| Asisi.ScaleSwap | hola/asisi.py:149 | a pair with the larger value first scales to 1 and 0 |
| Asisi.Classify | hola/asisi.py:166-169 | critical exactly above 0.7, warning exactly in (0.45, 0.7], stable otherwise, including a NaN score |
| Asisi.ClassifyMonotone | hola/asisi.py:166-169 | a higher score never gets a less severe status |
| Asisi.ClassifyBoundaries | hola/asisi.py:166-169 | exactly 0.7 is a warning, exactly 0.45 is stable, and above 0.7 is critical |
| Asisi.ScoreAll | hola/asisi.py:158-171 | the final table has one row per district with its score and that score's status |
| Asisi.Run | hola/asisi.py:85-173 | the analysis fails on a merged history of fewer than two days, fails on an empty merge, and otherwise yields one scored row per merged district |
| Asisi.RunRows | hola/asisi.py:85-173 | finished row i is merged pair i (a projected census row and a log row with the same key) with the metrics of that pair and noise draw i; its score is entry i of the batch's scores, in [0, 1] and undefined exactly when its rejection rate or its centres per 10k is, and its status is that score's status |

## Left out

- File discovery, spreadsheet loading, concatenation, charts and printed reports are left out, including the "actionable insights" block in `hola/asisi.py`. The model takes the concatenated rows as its inputs.
- The synthetic census and log tables (`get_census_data`, `get_aadhaar_logs`) and the simulated hospital table are not modelled. Every random draw is an input instead:
  - the centre divisor `Divisor`;
  - the noise `Noise`;
  - the authentication volume and history in each `LogRow`;
  - the hospital rows.
- Date parsing (`pd.to_datetime`, `.dt.to_period('M')`) is not modelled; a month is taken as an already-extracted key (`Month`).
- Floating point is not modelled. Ratios, scores, the growth factor and the slope are exact reals, and `np.polyfit` is its closed form.
- `DistrictKeys.LowerChar` lower-cases ASCII letters only. Python's `str.lower` also maps other Unicode capitals. White space is the set of characters `str.isspace` accepts.
- `Tables.GroupSum` does not specify its row order, while pandas sorts the groups by key. Row order reaches a result only through a ranking, where it decides ties, and through the row order of charted series (`SchoolPulse.MonthlyTrend`, `PhantomCluster.PinHistory`).
- `Tables.TopN` fixes its result only up to ties. `sort_values` does not promise a tie order, so every ranking (`TopLateAdopters`, `TopFriction`, `TopHubs`, `TopMagnets`, `TransientZones`, `RedFlags`, `TopRiskZones`, `TopClusters`) states what holds for any admissible order.
- `Asisi.RecoverySlope`: a history of fewer than two days is `MalformedHistory`, and the whole run stops.
  - This matches the source. numpy raises for an empty history. For a single sample, `range(1)` gives the days `[0]`, so a column scale inside `np.polyfit` is 0 and the fit has no numeric result (current LAPACK builds raise an error). Either way the run stops.
  - Longer histories than seven days are accepted, as `get_slope` accepts them.
- `Asisi.Run`: a NaN (0 / 0) metric is `None`. This matches the code's behaviour:
  - the scaler ignores it when fitting and keeps it when transforming;
  - the score of that district stays undefined;
  - `get_status` calls it stable, because every comparison with NaN is false.

  The code raises no per-record error for a zero denominator and excludes no record from scaling. It also does not check that a history has exactly seven samples.
- `Asisi.Run`: an empty merge is `EmptyBatch`, because `MinMaxScaler` raises on a table without rows. Histories are checked first, which is the order in which the source meets them.
- `PhantomCluster.Baseline` is defined as 0 for a PIN without monthly rows. In the merge every PIN has at least one row, so this case never reaches a result.
- The commented-out log-scale block in `Aadhaar/migrant_hubs.py` is a string literal, so it is not modelled.
- Conversions used only for chart labels (`.astype(str)` on PIN codes and months) are left out.
