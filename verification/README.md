# DataAnalysis core in Dafny

A model of the deterministic core of DataAnalysis, a warehouse-analysis tool:

- **Carrier fit engine.** Orientations, the best-margin choice, the FIT / BORDERLINE / NOT_FIT verdict, units per carrier, and the rotation-aware "fits some carrier" test.
- **Data-quality rules.** Validators, coverage metrics, the DQ lists, imputation, the quality score, masterdata consolidation and the orders statistics.
- **Ingest string and matching logic.** SKU normalisation and collisions, column auto-mapping with its history store, unit detection and conversion, file-type, separator and encoding detection, number-text cleaning, and path sanitising.
- **Shifts and throughput.** Shift schedules and the reductions of the performance analysis.

Frames are modelled as sequences of records. A null cell is `None`. Millimetres, kilograms and hours are `real`. Dates are day numbers (day 0 is 1970-01-01, a Thursday) and clock times are minutes since midnight. Python strings are `seq<char>`, with ASCII semantics for `lower`, `upper`, `strip` and `isalnum`.

Modules follow the source files:

- `Capacity`, `DimensionChecker`, `Types`, `Config`, `Shifts`, `Performance`;
- `Validators`, `DqMetrics`, `DqLists`, `Impute`, `QualityPipeline`;
- `Masterdata`, `Orders`;
- `SkuNormalize`, `Mapping`, `MappingHistory`, `Units`, `Readers`, `Cleaning`, `Paths`, `ImportView`.

`Frame` holds the masterdata frame that the quality and model stages share. `Wrappers`, `Seqs`, `Sorting`, `Ascii` and `Reals` are helpers: `Option`/`Result`, counting and filtering, stable sorting, ASCII string functions, and facts about real products and shares.

Where the documentation and the code disagree, the model follows the code. The capacity view asks `analyze_dataframe` for a prioritisation mode, and the documentation speaks of allocation policies, locations and a filling rate. `capacity.py` has none of these, so the model has none either. `analyze_dataframe` also checks inactive carriers, because the code does not filter them, while `analyze_sku` skips them.

Auto-mapping and suggestions take a `Mapping.Variant`. `AsWritten` is the program as it stands, and the import view uses it. `Corrected` applies the two fixes listed under "## Findings": the shorter-over-longer partial score and the history's own lookup key. Every general property of `AutoMap` and `GetSuggestions` is proved for both.

## Model

| member | source | states |
|---|---|---|
| Capacity.OrientationsArePermutations | src/analytics/capacity.py:34-35 | The six orientations are exactly the permutations of the length, width and height axes. |
| Capacity.AllowedOrientations | src/analytics/capacity.py:169-185 | ANY allows 6 orientations, UPRIGHT_ONLY the 2 with the height on the Z axis, and FLAT_ONLY the 4 with the height off it. There are no repeats, and every allowed orientation is one of the six. |
| Capacity.MinMargin | src/analytics/capacity.py:114-119 | The minimum margin is one of the three axis margins and no larger than any of them. It is non-negative exactly when the SKU fits in that orientation. |
| Capacity.BestIndex | src/analytics/capacity.py:104-130 | The scan keeps nothing exactly when every margin is negative. Otherwise it keeps a non-negative margin that no other margin exceeds, and every earlier margin is strictly smaller, so the first of equal margins wins. |
| Capacity.BestOrientationIndex | src/analytics/capacity.py:102-130 | No orientation is chosen exactly when no allowed orientation fits. Otherwise the chosen one fits, maximises the minimum margin, and is the earliest among equal margins. |
| Capacity.AxisCount | src/analytics/capacity.py:197-199 | The count is the number of whole SKU lengths that fit in the inner length, i.e. the floor of the quotient. A non-positive SKU size gives 0. |
| Capacity.WeightCount | src/analytics/capacity.py:204 | The weight count is the largest number of SKUs whose total weight stays within the limit. |
| Capacity.UnitsPerCarrier | src/analytics/capacity.py:187-206 | Units never exceed the grid count. With a positive weight, the units stay within the weight limit and equal either the grid count or the largest count the weight allows. With zero weight, the units are the grid count. |
| Capacity.CheckFit | src/analytics/capacity.py:88-167 | The limiting factor is DIMENSION exactly when no allowed orientation fits. It is WEIGHT exactly when some orientation fits and the weight exceeds the limit. NOT_FIT results carry 0 units, no orientation and no margin. A fitting result carries the chosen orientation, is BORDERLINE exactly when its margin is below the threshold, carries the margin only when BORDERLINE, and has the units of that orientation. |
| Capacity.ThresholdMonotone | src/analytics/capacity.py:119-130 | Raising the threshold keeps the orientation and the NOT_FIT verdict. It can only turn FIT into BORDERLINE, never the reverse. |
| Capacity.UnitsExample | src/analytics/capacity.py:187-206 | A 100 x 100 x 50 mm, 1 kg SKU on a 600 x 400 x 100 mm, 50 kg tray gives 48 units. |
| Capacity.AnalyzeSku | src/analytics/capacity.py:54-86 | There is one result per active carrier, in carrier order, each being that carrier's fit check. |
| Capacity.ParseConstraint | src/analytics/capacity.py:235-240 | The constraint is UPRIGHT_ONLY or FLAT_ONLY exactly for those names. Anything else, a missing value included, falls back to ANY. |
| Capacity.SelectCarriers | src/analytics/capacity.py:222-224 | With no id or an empty id, every carrier is analysed, inactive ones included. Otherwise exactly the carriers bearing that id are analysed. |
| Capacity.AllResults | src/analytics/capacity.py:226-254 | The loop succeeds exactly when there is no carrier to check or every row has a SKU. |
| Capacity.AllResultsAt | src/analytics/capacity.py:228-254 | Results come row-major: result i·n + j is row i checked on selected carrier j. |
| Capacity.AllResultsLength | src/analytics/capacity.py:228-254 | There are rows × selected-carriers results. |
| Capacity.StatusCountsPartition | src/analytics/capacity.py:269-273 | FIT, BORDERLINE and NOT_FIT counts add up to the number of results. |
| Capacity.FitPercentage | src/analytics/capacity.py:273-274 | The percentage lies in [0, 100]. It is 0 with no results, 0 exactly when nothing fits, and 100 exactly when something fits and nothing is NOT_FIT. |
| Capacity.AnalyzeDataframe | src/analytics/capacity.py:208-284 | A frame without a `sku` column fails. Otherwise the method fails exactly when a row lacks a SKU and some carrier is selected. Otherwise it returns rows × selected carriers results, the three counts partition them, and the percentage lies in [0, 100] (0 with no results, 100 exactly when none is NOT_FIT). `total_sku` is the number of distinct SKU cells, and the analysed carriers are the selected ones. |
| DimensionChecker.ScanOrientations | src/core/dimension_checker.py:45-55 | The inner loop succeeds exactly when some orientation of the list fits. |
| DimensionChecker.ScanCarriers | src/core/dimension_checker.py:39-57 | The outer loop succeeds exactly when some active carrier takes the SKU in some orientation. |
| DimensionChecker.CanFitAnyCarrier | src/core/dimension_checker.py:19-57 | An empty list always admits the SKU. Otherwise the SKU is admitted exactly when some active carrier takes it in some orientation, touching walls allowed, so a list of inactive carriers admits nothing. |
| DimensionChecker.AgreesWithCheckFit | src/core/dimension_checker.py:11-12 | For a non-empty list, the check holds exactly when some active carrier's capacity fit check (ANY, weight 0) is not NOT_FIT. |
| DimensionChecker.FitsSomePermuted | src/core/dimension_checker.py:45-49 | A fit of the dimensions is a fit of every permutation of them. |
| DimensionChecker.PermuteInverse | src/core/dimension_checker.py:45-49 | Every permutation of the three dimensions has an inverse among the six orientations. |
| DimensionChecker.CanFitPermutationInvariant | src/core/dimension_checker.py:15-16 | The answer does not depend on the order in which length, width and height are given. |
| DimensionChecker.MaxAllowedDimension | src/core/dimension_checker.py:60-78 | The result is an upper bound of every inner dimension of every active carrier. It is one of those dimensions, or 0 when there is no active carrier. |
| Types.MakeCarrier | src/core/types.py:184-199 | Construction succeeds exactly when the inner dimensions and the weight limit are strictly positive, and keeps the id and the active flag. |
| Types.InnerVolumeM3 | src/core/types.py:201-206 | A valid carrier has a strictly positive inner volume. |
| Types.MakeMasterdataRow | src/core/types.py:58-103 | Construction succeeds exactly when dimensions, weight and stock are non-negative. Stock defaults to 0, no flag is ESTIMATED, and the orientation is ANY. |
| Types.RowVolumeM3 | src/core/types.py:86-89 | A valid row's volume is non-negative, and it is zero exactly when some dimension is zero. |
| Types.DurationMinutes | src/core/types.py:249-259 | The duration lies in (0, 1440] minutes and brings the start clock round to the end clock. A shift that ends after it starts lasts end − start. |
| Types.DurationHours | src/core/types.py:249-259 | `duration_hours` lies in (0, 24] and is the minute duration in hours. |
| Types.DurationUnique | src/core/types.py:249-259 | The duration is the only length in (0, 24 h] that brings the start to the end, so an equal start and end means 24 h. |
| Types.GetShiftsForDay | src/core/types.py:276-279 | Indices 0..6 give Monday..Sunday. -7..-1 count back from Sunday, as Python list indexing does. Any other index is an error. |
| Types.DayBaseHours | src/core/types.py:281-289 | The BASE hours of a day are non-negative, at most 24 per BASE shift, and positive exactly when the day has a BASE shift. |
| Types.TotalBaseHoursPerWeek | src/core/types.py:281-289 | The weekly BASE total is non-negative and positive exactly when some day has a BASE shift. |
| Types.Penalty | src/core/types.py:339-347 | The problem penalty is the weighted problem count while that is at most 50, and 50 beyond. |
| Types.OverallScore | src/core/types.py:330-349 | The score is the weighted coverage minus the capped penalty, or 0 when that is negative. So it is non-negative, at least the weighted coverage minus 50, and equal to the weighted coverage with no problems. |
| Types.OverallScoreMonotone | src/core/types.py:330-349 | With equal coverage, a scorecard with no more problems of any kind scores at least as high. |
| Config.Validate | src/core/config.py:130-139 | Validation passes exactly for utilisations in (0, 1], productive hours in (0, 24] and a non-negative threshold, and returns the configuration unchanged. Failures name the first failing field in declaration order. |
| Config.DefaultConfig | src/core/config.py:105-128 | The default configuration (threshold 2.0 mm, 7.0 productive hours) passes validation. |
| Config.ZeroThresholdAccepted | src/core/config.py:138-139 | A zero borderline threshold is accepted and a negative one is refused. |
| Shifts.Weekday | src/analytics/shifts.py:42 | The weekday of a day number lies in 0..6. |
| Shifts.WeekdayPeriodic | src/analytics/shifts.py:42 | Weekdays repeat every 7 days and advance by one each day; day 0 is a Thursday. |
| Shifts.InstanceDurationHours | src/analytics/shifts.py:24-31 | An instance lasts (0, 24] hours, by the same midnight-wrapping rule as a configured shift. |
| Shifts.ExceptionShifts | src/analytics/shifts.py:88-98 | `add_shifts` wins over the per-weekday map. A weekday the map does not name adds nothing, and an exception with neither adds nothing. |
| Shifts.BaseInstances | src/analytics/shifts.py:44-54 | There is one base instance per configured shift of the weekday, in order. |
| Shifts.ExceptionBlocks | src/analytics/shifts.py:57-59 | Each exception contributes its own shifts on a date it applies to, and nothing on any other date. |
| Shifts.OverlayInstances | src/analytics/shifts.py:56-69 | The overlays are one instance per shift of the applicable exceptions' blocks, concatenated in exception order, each carrying the date and the weekly productive hours; with no applicable exception there are none. |
| Shifts.ShiftsForDate | src/analytics/shifts.py:40-71 | The instances are the weekday's base shifts, in schedule order, followed by the overlays of the applicable exceptions. Every instance carries the date and the weekly productive hours. Without an applicable exception, there are only the base shifts. |
| Shifts.ShiftsForRange | src/analytics/shifts.py:107-120 | The range is empty when start > end. Its shifts carry dates within [start, end] in non-decreasing order, each with the weekly productive hours. |
| Shifts.RangeHoldsEachDate | src/analytics/shifts.py:107-120 | The shifts of a range dated d are exactly the shifts of date d when d lies in the range, and there are none otherwise. |
| Shifts.TotalHours | src/analytics/shifts.py:122-134 | The total is the productive hours per shift times the number of selected shifts, not clock time. |
| Shifts.BasePlusOverlay | src/analytics/shifts.py:131-134 | The BASE total plus the OVERLAY total is the unfiltered total. |
| Shifts.HoursSplit | src/analytics/shifts.py:131-134 | Over any list of instances, BASE hours plus OVERLAY hours are all hours. |
| Shifts.WeekExample | src/analytics/shifts.py:122-134 | Two Monday shifts and one Tuesday shift at 7 productive hours total 21 hours over a week. |
| Shifts.OverlayExample | src/analytics/shifts.py:58-98 | A range overlay naming only Monday adds an OVERLAY shift after the base shifts on a Monday, and nothing on a Tuesday. |
| Performance.LinesSumZero | src/analytics/performance.py:482-484 | The grand total of lines is 0 exactly when every SKU group has 0 lines. |
| Performance.PctMonotone | src/analytics/performance.py:490-491 | A larger running line count never gives a smaller cumulative share. |
| Performance.PctWhole | src/analytics/performance.py:490-491 | The share of the whole total is 100 %. |
| Performance.Ranked | src/analytics/performance.py:486-511 | The loop keeps the groups in order and numbers them consecutively. Each cumulative share covers the lines up to and including that group, and each ABC class is the band of that share. |
| Performance.AllZeroPermutation | src/analytics/performance.py:480-484 | Reordering the groups does not change whether they all have 0 lines. |
| Performance.RankSorted | src/analytics/performance.py:486-511 | Groups sorted by descending lines are ranked 1..n in that order, with the running share and the ABC band of each. |
| Performance.SkuPareto | src/analytics/performance.py:471-511 | The result is empty exactly without a SKU column or when all groups have 0 lines. Otherwise it is a permutation of the groups with ranks 1..n, non-increasing line counts, each share covering the groups up to that rank, and the matching ABC class. |
| Performance.ParetoShape | src/analytics/performance.py:487-499 | Cumulative shares never decrease and the last is 100 %. Classes run A, then B, then C, never back. |
| Performance.Ratio | src/analytics/performance.py:327-329 | A zero denominator gives 0; otherwise the ratio times the denominator is the numerator. |
| Performance.MaxOf | src/analytics/performance.py:342-344 | The peak is an element of the list and no element exceeds it. |
| Performance.PercentileIndex | src/analytics/performance.py:349-351 | The percentile index is always in bounds. |
| Performance.PercentileIndexRank | src/analytics/performance.py:349-351 | The index `min(int(n·p/100), n − 1)` has at least p% of the positions up to and including it and at most p% before it. |
| Performance.SortedRank | src/analytics/performance.py:347-351 | In an ascending sequence, position k has at least k + 1 values at or below it and at most k strictly below it. |
| Performance.RankBounds | src/analytics/performance.py:347-351 | The same holds for the values of the unsorted input, counted against the k-th value of its ascending sort. |
| Performance.PercentileRank | src/analytics/performance.py:347-351 | The value picked for percentile p is a p-th percentile of the input: at least p% of the values are at or below it and at most p% strictly below it. |
| Performance.PercentileMonotone | src/analytics/performance.py:349-351 | A higher percentile never picks an earlier position. |
| Performance.SortAsc | src/analytics/performance.py:347 | The sort is ascending and a permutation of its input. |
| Performance.LastIsMax | src/analytics/performance.py:342-351 | The last element of the ascending sort is the peak. |
| Performance.LinePercentiles | src/analytics/performance.py:346-351 | p90 ≤ p95 ≤ p99 ≤ peak, and each percentile is one of the bucket values. Each is a percentile in the rank sense: at least 90%, 95% or 99% of the bucket values lie at or below it and at most that share strictly below it. |
| Performance.Kpi | src/analytics/performance.py:315-376 | Totals count the lines, the distinct orders and SKUs, and the quantity sum. Per-order and per-line averages are 0 on a zero denominator. With no buckets, every hourly figure is 0. Otherwise the averages are the bucket means, the peaks bound every bucket and are bucket values, and p90 ≤ p95 ≤ p99 ≤ peak, each being a rank percentile of the hourly line counts (`Percentile`). |
| Performance.LinesPerOrderAtLeastOne | src/analytics/performance.py:321-327 | With at least one line there is at least one order, and lines per order is at least 1. |
| Performance.AverageAtMostPeak | src/analytics/performance.py:337-342 | The average lines per hour never exceeds the peak. |
| Performance.DailyRates | src/analytics/performance.py:292-313 | Each day keeps its counts, and each per-hour rate times the productive hours per shift is the count. Zero productive hours with some day is a division error. |
| Performance.Trunc | src/analytics/performance.py:542-557 | `int()` truncates toward zero: the floor of a non-negative value, the ceiling of a negative one. |
| Performance.Share | src/analytics/performance.py:539 | A shift type's share is its hours over the total, and 0 without hours. |
| Performance.Apportion | src/analytics/performance.py:544-546 | The truncated share of a count: the floor for a non-negative count, never more than the count when the share is at most the whole. |
| Performance.ShiftEntry | src/analytics/performance.py:537-561 | The entry carries its type and hours. Its share of work is its hours over the total in percent, and lies in (0, 100] when the hours are part of the total. Its line rate times the hours is its share of the lines. Its line and order totals are the floors of those counts times the share, and its unit total is that product truncated toward zero. |
| Performance.ShiftPerformanceOf | src/analytics/performance.py:513-563 | Without a schedule there is no entry. With one there is an entry per shift type with positive hours, each share lies in (0, 100], and the shares add up to 100 %. |
| Performance.SplitByType | src/analytics/performance.py:535-563 | There is one entry per type with positive hours, BASE first, each with its hours. When neither total is negative, the shares lie in (0, 100] and add up to 100 %. |
| Performance.HoursSign | src/analytics/performance.py:523-529 | If one type total is positive, the other is non-negative, so the split's shares are well-defined. |
| Performance.SharesSum | src/analytics/performance.py:537-561 | Two positive hour totals give shares adding up to 100 %. |
| Performance.WorkingDays | src/analytics/performance.py:575-579 | There are never more working days than days in the range. |
| Performance.WorkingWeek | src/analytics/performance.py:575-579 | Any seven consecutive days hold exactly five working days. |
| Performance.WorkingDaysSplit | src/analytics/performance.py:575-579 | Working days are additive over adjacent ranges. |
| Performance.TotalProductiveHours | src/analytics/performance.py:565-580 | With a schedule this is the schedule's total hours. Without one it is two shifts of the productive hours per working day: 0 for an empty range, and never more than two shifts a day. |
| Performance.DefaultWeekHours | src/analytics/performance.py:574-580 | Without a schedule, a full week yields ten shifts' worth of hours. |
| Validators.MergeThresholds | src/quality/validators.py:93-98 | There is one range per numeric column, in the default order. A column without a custom entry keeps its default range, and a custom entry overrides only the bounds it gives. |
| Validators.UnknownThresholdIgnored | src/quality/validators.py:96-98 | A custom entry for a name that is not a numeric column changes nothing. |
| Validators.NewValidator | src/quality/validators.py:67-98 | No custom dict gives the default ranges, and no carriers skips the rotation check. |
| Validators.CellIssues | src/quality/validators.py:158-168 | There is one issue per row whose cell matches, in row order. Every such row has its issue (with its SKU text, the column and the value), and every issue is one of these. |
| Validators.FieldsIssues | src/quality/validators.py:158-168 | Every matching cell of every listed column the frame has gets its issue, and every issue is one of these. Their number is the total of matching cells over those columns, and absent columns give none. |
| Validators.SkuMissingIssues | src/quality/validators.py:144-157 | There is one CRITICAL MISSING_VALUE issue per null SKU, printed as "None". |
| Validators.MissingIssues | src/quality/validators.py:144-168 | Every issue is a MISSING_VALUE with a null value, CRITICAL exactly for the SKU column and WARNING otherwise. There is one issue per null SKU cell and per null measurement cell of a column the frame has, and every such cell is reported. |
| Validators.FieldPart | src/quality/validators.py:158-168 | Measurement-column nulls are WARNINGs that never name the SKU column: exactly one per null cell of each of the four measurement columns the frame has. |
| Validators.SkuPart | src/quality/validators.py:144-157 | A frame with a SKU column has one CRITICAL issue per null SKU cell; a frame without one has none. |
| Validators.ZeroCells | src/quality/validators.py:170-222 | Zero issues carry the value 0, the given severity and the column, one for each zero cell of a present column, and every zero cell is reported. An absent column gives none. |
| Validators.ZeroIssues | src/quality/validators.py:170-222 | Zero issues appear only under their flag: WARNING for dimensions and weight, INFO for stock. Under its flag, every zero cell of a present column is reported, and the issue count is the number of such cells. |
| Validators.NegativeIssues | src/quality/validators.py:224-249 | There are none unless negatives count as missing. Then there is exactly one WARNING per negative cell of each numeric column the frame has, and every such cell is reported. |
| Validators.ZeroPart | src/quality/validators.py:170-222 | One column's zero issues: exactly its zero cells when its flag is on and the frame has it, none otherwise. |
| Validators.StaticOutliers | src/quality/validators.py:278-304 | Every issue is a non-null, positive value strictly outside its column's configured range. Every such cell of a configured column the frame has is reported, one issue each. |
| Validators.OversizedSkusCons | src/quality/validators.py:320-362 | The oversized SKUs of a frame are those of its first row plus those of the rest. |
| Validators.RotationScan | src/quality/validators.py:340-362 | There is one issue per oversized SKU not already reported, and no SKU is reported twice. |
| Validators.RotationIssues | src/quality/validators.py:306-362 | Nothing is reported without carriers or without the SKU and dimension columns. Otherwise the reported SKUs are exactly the SKUs of rows with positive dimensions that fit no active carrier, each once. |
| Validators.OutlierIssues | src/quality/validators.py:251-276 | There are none when outlier validation is off. Otherwise every issue is an OUTLIER warning from the range check or the rotation check, every out-of-range cell is reported, and with carriers every oversized row's SKU is reported. |
| Validators.RotationCovers | src/quality/validators.py:340-362 | Every row with positive dimensions that fits no carrier has its SKU reported by the rotation check. |
| Validators.MarkRow | src/quality/validators.py:366-401 | A row keeps its SKU and flags. Each cell is nulled exactly when its rule asks and is otherwise unchanged. |
| Validators.MarkAsMissing | src/quality/validators.py:366-401 | The frame keeps its columns and row count, and every row is marked. |
| Validators.MarkAsMissingCleans | src/quality/validators.py:366-401 | No marked cell breaks its rule any more, and every cell that changed was a broken cell now null. |
| Validators.MarkAsMissingIdempotent | src/quality/validators.py:366-401 | Marking twice is marking once. |
| Validators.Validate | src/quality/validators.py:100-142 | Validation fails exactly when a check selects the absent SKU column. Otherwise the issues come in check order and the frame is the marked one. The result is valid exactly when no issue is CRITICAL, and the valid records are the total minus the distinct SKUs of critical issues. |
| Validators.OtherIssues | src/quality/validators.py:114-121 | The zero, negative and outlier checks and the measurement nulls are never CRITICAL. |
| Validators.AllIssuesSplit | src/quality/validators.py:109-121 | The issue list is the SKU nulls followed by the other issues. |
| Validators.CriticalCount | src/quality/validators.py:127 | The critical issues are exactly the null-SKU issues. |
| Validators.CriticalSkusOf | src/quality/validators.py:131 | The distinct SKUs of the critical issues are {"None"} when some SKU is null and none otherwise. |
| Validators.ValidateSummary | src/quality/validators.py:127-142 | The critical count is the number of null SKUs. The result is valid exactly when no SKU is null, and valid records fall short of the total by at most one. |
| DqMetrics.CoveragePct | src/quality/dq_metrics.py:176 | Coverage lies in [0, 100]. It is 0 for an empty frame or no valid cell, and 100 when every cell is valid. |
| DqMetrics.CoveragePctMonotone | src/quality/dq_metrics.py:176 | More valid cells never give less coverage. |
| DqMetrics.ValidCell | src/quality/dq_metrics.py:163-174 | A valid cell is never null. |
| DqMetrics.NumericCoverage | src/quality/dq_metrics.py:133-187 | Nulls plus non-nulls are the total, and valid cells are among the non-nulls. A missing column counts as all null, with nothing valid and 0 % coverage. Otherwise the null, zero, negative and valid counts count the cells of each kind. |
| DqMetrics.ValidBelowNonNull | src/quality/dq_metrics.py:163-174 | Valid cells plus null cells never exceed the rows. |
| DqMetrics.SkuCoverage | src/quality/dq_metrics.py:133-187 | The SKU column has no zero or negative counts. Every non-null SKU is valid, nulls plus non-nulls are the total, and without the column nothing is valid. |
| DqMetrics.ValidPlusMissing | src/quality/dq_metrics.py:23-26 | Under the default flags, valid cells plus `missing_count` make up the total. |
| DqMetrics.CellPartition | src/quality/dq_metrics.py:23-26 | Every cell is exactly one of null, zero, negative or positive. |
| DqMetrics.CompleteDimensions | src/quality/dq_metrics.py:189-208 | The count is 0 unless all three dimension columns exist; otherwise it is the number of rows whose three dimensions are all present. |
| DqMetrics.CompleteDimensionsBelowEach | src/quality/dq_metrics.py:189-208 | Rows with complete dimensions are no more than the valid cells of any one dimension. |
| DqMetrics.AvailableFields | src/quality/dq_metrics.py:214-218 | The available fields are exactly the required fields the frame has. |
| DqMetrics.ValidCountAsWritten | src/quality/dq_metrics.py:220-237 | A defined count never exceeds the number of fields. |
| DqMetrics.ValidCount | src/quality/dq_metrics.py:220-237 | The count is 0 exactly when no field is present and full exactly when every field is present. |
| DqMetrics.CountsAgree | src/quality/dq_metrics.py:220-237 | Where the program's null-propagating count is defined, it equals the corrected count. |
| DqMetrics.AsWrittenNullExactly | src/quality/dq_metrics.py:220-237 | The program's count is null exactly under the zero flag with some null field. |
| DqMetrics.AsWrittenRowTests | src/quality/dq_metrics.py:220-237 | Per row, the program's complete test is the corrected one. Its empty test is the corrected one plus, under the zero flag, no null among the available fields. |
| DqMetrics.RecordCompletenessAsWritten | src/quality/dq_metrics.py:210-239 | The program's complete, partial and empty counts add up to the rows. With no available field every row is empty. Otherwise complete counts the rows with every available field present; empty counts the rows with none present and, under the zero flag, none null; every other row is partial. |
| DqMetrics.NullRowsCountedPartial | src/quality/dq_metrics.py:220-237 | Under the zero flag, rows that each hold a null available field are all counted partial, whatever their other cells hold. |
| DqMetrics.AllNullRowCountedPartial | src/quality/dq_metrics.py:220-237 | As written, a row with every required field null is counted partial. |
| DqMetrics.AllNullRowEmpty | src/quality/dq_metrics.py:220-237 | Counting a null as absent, the same row is empty. |
| DqMetrics.RecordCompleteness | src/quality/dq_metrics.py:210-239 | Complete, partial and empty add up to the rows. Without a required field every row is empty. Otherwise complete rows have every available field and empty rows none. |
| DqMetrics.CompletenessAgreesWithoutNulls | src/quality/dq_metrics.py:210-239 | Without null cells, or without the zero flag, the program's counts equal the corrected ones. |
| DqMetrics.UniqueSkuCount | src/quality/dq_metrics.py:114 | The count is the number of distinct SKU cells, a null included. It is 0 without the column, at least 1 with rows, and never more than the rows. |
| DqMetrics.UniqueSkusOfDistinct | src/quality/dq_metrics.py:114 | Distinct SKUs give as many unique SKUs as rows. |
| DqMetrics.Calculate | src/quality/dq_metrics.py:75-131 | Every coverage lies in [0, 100]. Dimension coverage is the share of complete-dimension rows. Stock coverage exists exactly with a stock column. The completeness counts are the program's: complete rows have every available field present, empty rows none present and (under the zero flag) none null, and the rest are partial. They equal the corrected counts whenever the zero flag is off or no available field is null. The unique count is the distinct SKUs. |
| DqMetrics.ToScorecard | src/quality/dq_metrics.py:53-61 | The scorecard carries the four coverage figures and no problem penalty. |
| DqLists.TotalIssues | src/quality/dq_lists.py:31-41 | The total is 0 exactly when all six lists are empty, and it is at least the length of each list. |
| DqLists.CellItems | src/quality/dq_lists.py:85-137 | There is one item per row whose cell matches. Each item describes a matching row, and every matching row has its item. |
| DqLists.FieldItems | src/quality/dq_lists.py:85-137 | An absent column gives no items. A present one gives an item for each matching row, and only those. |
| DqLists.MissingItems | src/quality/dq_lists.py:91-107 | There is one missing-critical item per null or non-positive cell of the column, and every such cell has its item. |
| DqLists.MissingCritical | src/quality/dq_lists.py:85-107 | The items are missing-critical items, as many as the null or non-positive cells of the four measurement columns. |
| DqLists.MissingCriticalComplete | src/quality/dq_lists.py:85-107 | Every null or non-positive measurement cell has its item. |
| DqLists.MissingNone | src/quality/dq_lists.py:91-107 | A column whose cells are all present and positive contributes no missing-critical item. |
| DqLists.SuspectItems | src/quality/dq_lists.py:109-137 | Items are positive values strictly outside the column's range, with "very small" exactly below the low bound. Every such cell has its item. |
| DqLists.SuspectOutliers | src/quality/dq_lists.py:109-137 | Every item is a suspect outlier of one of the four measurement columns. |
| DqLists.SuspectNone | src/quality/dq_lists.py:109-137 | A column whose cells all lie strictly inside its suspect bounds contributes no suspect item. |
| DqLists.LimitColumn | src/quality/dq_lists.py:157-166 | A limit key is used only when it names a numeric column the frame has. |
| DqLists.LimitItems | src/quality/dq_lists.py:157-178 | Every item of one limit entry is a value in (limit − threshold, limit]. Every cell of the named column in that band has its item, with the margin to the limit. |
| DqLists.CoversLimitWithin | src/quality/dq_lists.py:157-178 | The band cells of a limit stay covered in any larger item list. |
| DqLists.BorderlineFor | src/quality/dq_lists.py:157-180 | Every item is a value in (limit − threshold, limit] for some given limit. For every limit, every cell of its column in that band has its item. |
| DqLists.HighRiskBorderline | src/quality/dq_lists.py:141-180 | Items lie in the band of a given limit, or of the 600/400/350 mm defaults when none are given, and then only for the dimensions. Every value in the band of a limit, on a column the frame has, has its item. |
| DqLists.NoBorderlineFor | src/quality/dq_lists.py:157-180 | When no value lies in any limit's band, no borderline item is reported. |
| DqLists.DuplicateItems | src/quality/dq_lists.py:189-200 | There is one duplicate item per repeated SKU, carrying a count above 1. |
| DqLists.Duplicates | src/quality/dq_lists.py:182-202 | There is nothing without a SKU column. Otherwise there is one item per SKU value occurring more than once, with its count, and every such SKU has its item. |
| DqLists.RowsOf | src/quality/dq_lists.py:222-223 | The rows of a SKU are exactly the input rows carrying it. A null SKU matches no row. |
| DqLists.NonNullValues | src/quality/dq_lists.py:226 | Each value is the cell of some row, and every non-null cell's value is among them. |
| DqLists.DistinctKeepsTwo | src/quality/dq_lists.py:227 | Two different values of a column survive `unique()` as two entries. |
| DqLists.DisagreeValues | src/quality/dq_lists.py:225-228 | When two rows of a non-null SKU hold different non-null values, the SKU's distinct values number more than one. |
| DqLists.ConflictHere | src/quality/dq_lists.py:225-234 | The item for one column is a sound conflict, and it is present whenever the SKU's rows disagree on that column. |
| DqLists.ConflictsFor | src/quality/dq_lists.py:222-234 | A null SKU gives no conflict. Every item is a conflict of that SKU on a listed column, and every listed column the SKU's rows disagree on has its item. |
| DqLists.ConflictsOver | src/quality/dq_lists.py:219-234 | Every item is a conflict of a listed SKU; every listed non-null SKU and column whose rows disagree has its item. |
| DqLists.Conflicts | src/quality/dq_lists.py:204-237 | There is nothing without a SKU column. Every item is a duplicated SKU whose rows hold at least two distinct non-null values in a present measurement column. Every duplicated non-null SKU whose rows hold two different non-null values in a present column has its item, listing those distinct values. |
| DqLists.AgreeingRowsNoConflict | src/quality/dq_lists.py:225-234 | Rows of a SKU that agree on a column give no conflict for it. |
| DqLists.BuildAllLists | src/quality/dq_lists.py:62-83 | Building fails exactly when an item needs the absent SKU column or a limit names the SKU column. Otherwise the lists are the five builders' results with empty collisions, and the total is the sum of their lengths. |
| DqLists.BuildDqLists | src/quality/dq_lists.py:239-254 | The builder runs with the default 2 mm threshold, and collisions are empty. |
| DqLists.CleanFrameNoIssues | src/quality/dq_lists.py:62-83 | A frame of distinct SKUs whose measurements lie inside the suspect ranges and below the default borderline bands gives no item at all. |
| DqLists.CleanNoMissing | src/quality/dq_lists.py:85-107 | A frame of clean rows has no missing-critical items. |
| DqLists.CleanNoSuspect | src/quality/dq_lists.py:109-137 | A frame of clean rows has no suspect outliers. |
| DqLists.CleanNoBorderline | src/quality/dq_lists.py:141-180 | A frame of clean rows has no borderline items under the default limits. |
| DqLists.DistinctNoDuplicates | src/quality/dq_lists.py:182-237 | Distinct SKUs give no duplicates and no conflicts. |
| Impute.ImputationRate | src/quality/impute.py:43-48 | The rate is non-negative and 0 for an empty frame. Otherwise, times the records, it is a hundred times the imputed cells. |
| Impute.MedianOf | src/quality/impute.py:178-179 | The median lies between two of the valid values. |
| Impute.MeanOf | src/quality/impute.py:180-181 | The mean lies between two of the valid values, and times their number it gives their sum. |
| Impute.ModeOf | src/quality/impute.py:182-184 | The mode is a valid value that no other value outnumbers. |
| Impute.Statistic | src/quality/impute.py:176-187 | Every method's value lies between two valid values. |
| Impute.ValidValues | src/quality/impute.py:136-150 | Valid values and missing cells make up the rows, and no valid value is missing. |
| Impute.Fill | src/quality/impute.py:154-164 | A filled cell holds the value and the ESTIMATED flag; everything else in the row is unchanged. |
| Impute.FillMissing | src/quality/impute.py:154-164 | Exactly the missing cells are filled. |
| Impute.ImputeField | src/quality/impute.py:128-174 | No statistic is reported when no cell is missing or none is valid, and then the frame is unchanged. Otherwise the imputed count is the missing count, the value lies between valid values, and exactly the missing cells get it with the ESTIMATED flag. |
| Impute.ImputeFieldLeavesNoMissing | src/quality/impute.py:154-164 | After imputing, no cell of the column is missing. |
| Impute.ImputeFieldFrame | src/quality/impute.py:154-164 | Every other column, its flags and the SKU stay as they were. |
| Impute.DefaultNames | src/quality/impute.py:94-95 | Without requested fields, exactly the imputable columns the frame has are used. |
| Impute.ImputableField | src/quality/impute.py:101-107 | A name is imputed exactly when it is a numeric column the frame has; other names are skipped. |
| Impute.WithFlag | src/quality/impute.py:109-113 | A missing flag column is added all RAW. An existing one leaves the frame unchanged. Values, other flags and SKUs are untouched. |
| Impute.Step | src/quality/impute.py:101-119 | A skipped name changes nothing. A reported statistic names the field and imputes some but not all rows. |
| Impute.ImputeAll | src/quality/impute.py:101-119 | Every reported statistic names a requested field, uses the method, and imputes some but not all rows. |
| Impute.Impute | src/quality/impute.py:80-126 | The total imputed is the sum of the per-field counts, the record count is the input's, and only requested fields are reported. |
| Impute.TotalImputed | src/quality/impute.py:116-119 | The running total is the sum of the imputed counts. |
| Impute.StepKeepsValid | src/quality/impute.py:154-164 | A cell that is not missing, and the SKU, survive a pass. |
| Impute.StepKeepsClean | src/quality/impute.py:154-164 | A column with no missing cell still has none after an imputation pass over any column. |
| Impute.StepCleans | src/quality/impute.py:154-164 | A pass that reports a statistic leaves its column with no missing cell. |
| Impute.ImputeAllKeepsValid | src/quality/impute.py:101-119 | Every cell that was not missing, and every SKU, is the same after all passes. |
| Impute.ImputeAllKeepsClean | src/quality/impute.py:101-119 | A column with no missing cell still has none after all passes. |
| Impute.ImputeAllCleans | src/quality/impute.py:101-119 | Every column reported on ends with no missing cell. |
| Impute.ImputeCompletes | src/quality/impute.py:80-174 | After imputing, a reported column has no missing cell, and every cell that was not missing is unchanged. |
| QualityPipeline.Penalty | src/quality/pipeline.py:37 | The penalty is half a point per issue, capped at 30. |
| QualityPipeline.Score | src/quality/pipeline.py:27-38 | The score is the weighted coverage minus the issue penalty, or 0 when that is negative. So it lies in [0, 100], within 30 points below the weighted coverage, and equals it with no issues. |
| QualityPipeline.ScoreMonotone | src/quality/pipeline.py:27-38 | More issues never raise the score, and better coverage never lowers it. |
| QualityPipeline.QualityScore | src/quality/pipeline.py:27-38 | The result's score is the weighted coverage after imputation minus the penalty for its DQ issues, or 0 when that is negative; it lies in [0, 100]. |
| QualityPipeline.ValidatorOf | src/quality/pipeline.py:44-75 | The validator treats zero as missing for dimensions and weight exactly as the pipeline says, validates outliers, and has no carriers. |
| QualityPipeline.Run | src/quality/pipeline.py:77-127 | The run fails when validation or the DQ lists fail. Otherwise the metrics are taken on the validated frame and on the output, the output is the validated frame unless imputation is enabled, and then it is the imputed frame with its total. The record counts are copied. |
| QualityPipeline.CleanColumnFullyValid | src/quality/pipeline.py:44-75 | A column the imputer sees as complete is fully valid for the calculator under the same zero flag. |
| QualityPipeline.ImputedColumnsFullyCovered | src/quality/pipeline.py:98-107 | Every column imputation reports on has 100 % coverage after imputation. |
| Masterdata.StrategyNamed | src/model/masterdata.py:91-96 | "max" and "mean" pick their strategies; every other name means "first". |
| Masterdata.Values | src/model/masterdata.py:91-96 | The non-null values are exactly the present cells, and they are empty exactly when every cell is null. |
| Masterdata.Aggregate | src/model/masterdata.py:87-96 | "first" keeps the first cell, even a null. "max" and "mean" are null only when every cell is. The maximum is a cell no other cell exceeds. The mean lies between two values, and times the number of non-null cells it gives their sum. |
| Masterdata.ConsolidateGroup | src/model/masterdata.py:80-105 | The consolidated row keeps the group's SKU. Each present numeric column is aggregated by the strategy, and each flag takes the group's first value. |
| Masterdata.GroupOf | src/model/masterdata.py:105 | A SKU's group is non-empty and holds only rows of that SKU. |
| Masterdata.Groups | src/model/masterdata.py:64-67 | There is one consolidated row per duplicated SKU, in key order. |
| Masterdata.Consolidate | src/model/masterdata.py:38-78 | The intended merge, stacking rows column by column. It fails exactly without a SKU column. Otherwise the merged count is original minus consolidated, conflicts resolved is the number of duplicated SKUs, and the columns are kept. With no duplicate, the frame comes back unchanged with nothing merged. |
| Masterdata.ConsolidateDuplicates | src/model/masterdata.py:38-78 | As written, consolidation fails exactly without a SKU column, or when some SKU is repeated and the frame's schema (column names, order, dtypes) is not that of the `group_by` output, since the vertical concat then raises. Whenever it succeeds, its result is the intended merge's. |
| Masterdata.MismatchedSchemaFails | src/model/masterdata.py:67-105 | A frame with a repeated SKU whose schema differs from the `group_by` output fails as written, while the intended merge succeeds. |
| Masterdata.KeptDistinct | src/model/masterdata.py:63 | The kept rows carry distinct, non-null SKUs that are not duplicated. |
| Masterdata.ConsolidatedSkuCells | src/model/masterdata.py:63-70 | After consolidation, the SKU column is the kept SKUs followed by the group keys. |
| Masterdata.ConsolidatedSkusDistinct | src/model/masterdata.py:63-70 | After consolidation, every SKU occurs once. |
| Masterdata.ConsolidatedSkusExact | src/model/masterdata.py:63-70 | After consolidation, the SKUs are exactly the non-null SKUs of the input. |
| Masterdata.ConsolidatedCountIsDistinctSkus | src/model/masterdata.py:72-77 | `consolidated_count` is the number of distinct non-null SKUs. |
| Masterdata.UniqueRowsKept | src/model/masterdata.py:63-70 | A row whose SKU occurs once passes through unchanged. |
| Masterdata.NullSkuRowsDropped | src/model/masterdata.py:63-64 | Once some SKU is duplicated, no null-SKU row survives, since `is_in` is null on a null SKU. |
| Masterdata.VolumeM3 | src/model/masterdata.py:119-123 | The volume is defined exactly when all three dimensions are, and then it is the row's volume in cubic metres. |
| Masterdata.SizeOf | src/model/masterdata.py:137-148 | The bands are XS below 0.001 m³, S below 0.01, M below 0.05, L below 0.1 and XL otherwise. A null volume is XL. |
| Masterdata.SizeMonotone | src/model/masterdata.py:137-148 | A larger volume never gets a smaller band. |
| Masterdata.AddVolumeAndSize | src/model/masterdata.py:107-148 | The step fails exactly when a dimension column is missing. Otherwise each row keeps its cells and gains its volume and that volume's band. |
| Masterdata.Process | src/model/masterdata.py:150-170 | Processing fails exactly without the SKU or a dimension column, or when consolidation's concat fails on a repeated SKU with a differing schema. Otherwise it yields one row per consolidated SKU, and without duplicates the rows come through in order. |
| Orders.Project | src/model/orders.py:90-96 | Projection keeps the SKU, and masterdata columns the table lacks read as null. |
| Orders.Matches | src/model/orders.py:98-103 | The entries a line joins to are exactly the masterdata entries with its SKU; a null SKU matches nothing. |
| Orders.Times | src/model/orders.py:105-114 | Line volume and weight are the product when both sides are present, and null otherwise. |
| Orders.JoinLine | src/model/orders.py:98-103 | A line yields one row per matching entry, or one row with null masterdata when nothing matches. |
| Orders.JoinAll | src/model/orders.py:74-116 | Every order line appears in the join, and every joined row comes from an order line. |
| Orders.AtMostOneMatch | src/model/orders.py:98-103 | With unique masterdata SKUs, a line matches at most one entry. |
| Orders.JoinKeepsLines | src/model/orders.py:98-103 | With unique masterdata SKUs, the join keeps one row per order line, in order. |
| Orders.TotalUnits | src/model/orders.py:130 | Total units are the quantity sum with nulls skipped, non-negative when quantities are. |
| Orders.EarliestTimestamp | src/model/orders.py:135 | The minimum is null exactly when every timestamp is. Otherwise it is a timestamp no other timestamp precedes. |
| Orders.LatestTimestamp | src/model/orders.py:136 | The maximum is null exactly when every timestamp is. Otherwise it is a timestamp no other timestamp follows. |
| Orders.CalculateStats | src/model/orders.py:118-143 | Lines are the rows. Orders and SKUs are distinct counts, 0 without their column, and orders never exceed lines. Units are the quantity sum. Dates exist only with a timestamp column, with from ≤ to. Each average exists exactly when its denominator is positive. |
| Orders.NUnique | src/model/orders.py:129-131 | The distinct count is 0 without the column, never exceeds the rows, and is at least 1 when there is a row. |
| Orders.Average | src/model/orders.py:140-141 | Units per line times lines is the units. |
| Orders.DateRange | src/model/orders.py:134-136 | There is no range without a timestamp column; otherwise the range runs from the earliest to the latest timestamp. |
| Orders.EarliestBeforeLatest | src/model/orders.py:134-136 | The earliest timestamp never follows the latest. |
| Orders.Ratio | src/model/orders.py:138-139 | Lines per order are at least 1, since every order has a line. |
| Orders.Process | src/model/orders.py:145-184 | With masterdata, both frames need a SKU column. The unmatched SKUs are exactly the order SKUs, null included, that no masterdata entry carries; without masterdata there are none. The statistics are those of the joined lines. |
| Orders.UnmatchedLinesHaveNoMasterdata | src/model/orders.py:163-170 | A line whose SKU is unmatched joins to null masterdata columns. |
| SkuNormalize.StripStep | src/ingest/sku_normalize.py:65-67 | With whitespace stripping on, no space is left anywhere in the SKU; with it off, the SKU is unchanged. |
| SkuNormalize.ReplaceStep | src/ingest/sku_normalize.py:70-71 | No replacement pairs leave the SKU unchanged; replacements without spaces never bring a space back. |
| SkuNormalize.SpecialStep | src/ingest/sku_normalize.py:74-75 | With special-character removal on, only letters, digits, '-' and '_' remain; it never adds a space. |
| SkuNormalize.UpperStep | src/ingest/sku_normalize.py:78-79 | With uppercasing on, no lower-case letter remains; it keeps the character class and the absence of spaces. |
| SkuNormalize.NormalizeText | src/ingest/sku_normalize.py:62-81 | Each enabled option is honoured at the end of the whole pipeline: no lower case, only SKU characters, no spaces (when the replacements add none). |
| SkuNormalize.NormalizeSku | src/ingest/sku_normalize.py:50-81 | A null SKU normalises to the empty string; a present one goes through the text pipeline. |
| SkuNormalize.DefaultIdempotent | src/ingest/sku_normalize.py:30-81 | With the default settings, normalising an already normalised SKU changes nothing. |
| SkuNormalize.CollisionTypeOf | src/ingest/sku_normalize.py:158-170 | "case" exactly when the originals agree after lower-casing; "whitespace" exactly when they do not but agree once whitespace is removed; otherwise "special_chars". |
| SkuNormalize.TextsFor | src/ingest/sku_normalize.py:139-143 | A text is listed for a normalised key exactly when some row with that key has that original text. |
| SkuNormalize.OriginalsOf | src/ingest/sku_normalize.py:139-143 | The set of originals of a key: no repeats, and membership exactly when some row maps that original to the key. |
| SkuNormalize.CollisionFor | src/ingest/sku_normalize.py:147-154 | The entry for a colliding key carries the key, its originals sorted, and the kind of collision among them. |
| SkuNormalize.CollidingKeys | src/ingest/sku_normalize.py:145-147 | The keys listed are distinct, and a key is listed exactly when it occurs and has more than one original. |
| SkuNormalize.Entries | src/ingest/sku_normalize.py:146-154 | One entry per colliding key, in the same order. |
| SkuNormalize.DetectCollisions | src/ingest/sku_normalize.py:128-156 | No key is reported twice, and there are never more reports than rows. |
| SkuNormalize.DetectedAreCollisions | src/ingest/sku_normalize.py:135-154 | Every reported collision is a real one: the key occurs and the entry lists its originals, sorted, with the right type. |
| SkuNormalize.CollisionsDetected | src/ingest/sku_normalize.py:135-154 | Every key that has two different originals is reported. |
| SkuNormalize.NormalizeColumn | src/ingest/sku_normalize.py:83-126 | The output column normalises each row in place; the distinct count after normalisation never exceeds the row count; the collision count is the length of the collision list. |
| SkuNormalize.CaseCollisionsDifferOnlyInCase | src/ingest/sku_normalize.py:158-163 | Any two originals of a collision typed "case" agree once lower-cased. |
| SkuNormalize.DifferentOriginalsCollide | src/ingest/sku_normalize.py:135-154 | Two rows with the same normalised SKU but different original texts always produce a collision report for that SKU. |
| MappingHistory.Normalize | src/ingest/mapping_history.py:248-257 | The stored key is no longer than the name, has no upper-case letter, space or '-', and no surrounding whitespace. |
| MappingHistory.NormalizeIdempotent | src/ingest/mapping_history.py:248-257 | Normalising a stored key again changes nothing. |
| MappingHistory.EntriesOf | src/ingest/mapping_history.py:104-106 | A schema type with no stored list has no entries. |
| MappingHistory.FindPair | src/ingest/mapping_history.py:158-162 | Finds the first entry holding the column-field pair, and finds none exactly when no entry holds it. |
| MappingHistory.Bump | src/ingest/mapping_history.py:163-169 | A repeated mapping counts one more use, keeps any earlier correction flag, and only fills in the client pattern when none was stored. |
| MappingHistory.RecordMapping | src/ingest/mapping_history.py:131-183 | Only the given schema type's list changes and the blacklist is untouched; an existing pair is bumped in place with every other entry unchanged; otherwise one new entry with the normalised column and one use is appended. |
| MappingHistory.RecordMappingStoresPair | src/ingest/mapping_history.py:155-183 | Recording keeps every pair stored at most once, and afterwards the pair is stored, flagged when the recording was a correction. |
| MappingHistory.IsBlacklisted | src/ingest/mapping_history.py:185-208 | True exactly when the normalised column, the field and the schema type are blacklisted together. |
| MappingHistory.AddToBlacklist | src/ingest/mapping_history.py:210-242 | The mappings are untouched and the triple is blacklisted afterwards; a triple already there leaves the history unchanged, otherwise it is appended. |
| MappingHistory.AddToBlacklistIdempotent | src/ingest/mapping_history.py:223-230 | Blacklisting twice is the same as blacklisting once. |
| MappingHistory.AddToBlacklistKeepsDistinct | src/ingest/mapping_history.py:223-242 | A blacklist without repeats stays without repeats. |
| MappingHistory.BlacklistBySpelling | src/ingest/mapping_history.py:198-208 | Blacklisting one spelling blacklists every spelling with the same normal form. |
| MappingHistory.GetHistoryMappings | src/ingest/mapping_history.py:92-129 | The result is ordered by use count, most used first, and holds exactly the schema type's entries the client filter admits; with no client filter it is a reordering of all of them. |
| MappingHistory.GetHistoryMappingsStable | src/ingest/mapping_history.py:127-129 | Entries with equal use counts keep their stored order. |
| Mapping.SchemaNames | src/ingest/mapping.py:222 | The field names of a schema, in schema order, one per field. |
| Mapping.NormalizeColumnName | src/ingest/mapping.py:226-233 | A normalised column name has no upper-case letter, space or '-', never ends in '_', and is never longer than the name. |
| Mapping.ColumnNameIsTrimmedKey | src/ingest/mapping.py:226-233 | The wizard's normal form is the history's stored key with trailing underscores removed. |
| Mapping.NormalizeColumnNameIdempotent | src/ingest/mapping.py:226-233 | For names whose only whitespace is the space character, normalising twice is the same as once. |
| Mapping.TabNameNotIdempotent | src/ingest/mapping.py:229-232 | With a tab before a trailing '-', a second normalisation strips what the first exposed, so the name is not yet in normal form. |
| Mapping.RatioAsWritten | src/ingest/mapping.py:335-336 | The partial-match score as written is a fraction, and it is 1.0 whenever the column's name is no longer than the alias. |
| Mapping.RatioCorrected | src/ingest/mapping.py:335-336 | The corrected score, shorter length over longer, is a fraction; a partial match never reaches 1.0, and an empty side scores 0. |
| Mapping.Ratio | src/ingest/mapping.py:336 | Either scoring yields a value between 0 and 1. |
| Mapping.AliasScore | src/ingest/mapping.py:330-339 | The score of one alias is a fraction; under the corrected scoring only an exact match can reach 1.0, and an empty name scores 0. |
| Mapping.Candidates | src/ingest/mapping.py:321-327 | The pairs tried are exactly the unused columns against every alias. |
| Mapping.FirstExact | src/ingest/mapping.py:330-332 | Reports a column exactly when some pair is an exact match, and the reported column is part of such a pair. |
| Mapping.Scored | src/ingest/mapping.py:334-336 | Each pair gets the score of its column against its alias, in order. |
| Mapping.Best | src/ingest/mapping.py:337-339 | The running best never drops, bounds every score seen, and changes only to an item carrying that score. |
| Mapping.BestIsEarliest | src/ingest/mapping.py:337-339 | Because the comparison is strict, a tie keeps the earliest item with the best score. |
| Mapping.FindBestMatchWith | src/ingest/mapping.py:307-344 | For either variant: the match is an unused column with a confidence between 0.5 and 1.0; any exact match wins with 1.0; otherwise the result scores at least 0.5 and no unused pair scores more; a pair reaching 0.5 guarantees a result when no column name is empty. |
| Mapping.BestOfPairs | src/ingest/mapping.py:318-339 | After the scan, a positive best belongs to an unused column with an alias giving that score, and no pair scores more. |
| Mapping.FindBestMatch | src/ingest/mapping.py:307-344 | With the corrected score, a match scores 1.0 exactly when an exact match exists, and otherwise is the best pair and at least 0.5. |
| Mapping.EmptyNameTakesFullScoreAsWritten | src/ingest/mapping.py:325-342 | As written, a column whose normal form is empty is contained in every alias and is matched with full confidence. |
| Mapping.EmptyNameNeverMatches | src/ingest/mapping.py:325-344 | With the corrected score, a column whose normal form is empty matches no non-empty alias. |
| Mapping.UnderscoreNormalizesEmpty | src/ingest/mapping.py:232 | The column "_" normalises to the empty name. |
| Mapping.RecordedColumnMissedAsWritten | src/ingest/mapping.py:264-265 | The column "A-" is stored in the history as "a_" but looked up as "a", so its recorded mapping is never found. |
| Mapping.RecordedEntryMissedAsWritten | src/ingest/mapping.py:261-268 | As written, a history entry stored under the key of "A-" is never hit by the column "A-", so auto-mapping cannot reuse it. |
| Mapping.RecordedColumnFound | src/ingest/mapping_history.py:155-183 | After recording a column for a field, an entry under the column's lookup key and that field is stored, so auto-mapping can find it. |
| Mapping.HistoryColumn | src/ingest/mapping.py:261-279 | Under the variant's lookup key (the wizard's normal form as written), picks an unused column that the history entry names and that is not blacklisted, and picks none exactly when no such column exists. |
| Mapping.Assign | src/ingest/mapping.py:272-278 | Maps the field to the column and marks the column used. |
| Mapping.AssignSound | src/ingest/mapping.py:272-278 | Assigning a free field to a free column keeps every field mapped to its own distinct column and loses no earlier mapping. |
| Mapping.HistoryTurn | src/ingest/mapping.py:254-279 | One history entry adds at most its own field, at confidence 0.95, to a matching unblacklisted column, and does add it when the field is in the schema, still free, and such a column exists. |
| Mapping.HistoryStep | src/ingest/mapping.py:248-279 | Every field the history step adds has confidence 0.95 and comes from an entry for that field whose column matches. |
| Mapping.AliasTurn | src/ingest/mapping.py:282-300 | Under either variant's score, one schema field is mapped with confidence between 0.5 and 1.0, is always mapped when an exact alias is free, and is listed as missing only when it is required and stays unmapped. |
| Mapping.AliasStep | src/ingest/mapping.py:281-300 | Fields the alias step adds belong to the schema with confidence between 0.5 and 1.0. The missing list is exactly the required fields left unmapped, appended after the given list in schema order. |
| Mapping.AutoMap | src/ingest/mapping.py:235-305 | For the program as written and for the corrected variant alike: every mapping is of a schema field to one of the given columns, no column serves two fields, the unmapped columns are the rest in their order, the missing list is exactly the unmapped required fields in schema order, and every history match is kept. |
| Mapping.HistoryDraft | src/ingest/mapping.py:248-279 | History matches all carry confidence 0.95 and come from a listed history entry. |
| Mapping.HistoryMatchesWin | src/ingest/mapping.py:248-300 | A field mapped from history keeps that mapping in the final result; aliases cannot override it. |
| Mapping.ExactAliasMaps | src/ingest/mapping.py:281-300 | When a column exactly matches an alias of a field, either that field is mapped or the column was taken by another field. |
| Mapping.AliasStepMapsExact | src/ingest/mapping.py:281-300 | The same property for the alias step alone. |
| Mapping.EmptyColumnMappedAsWritten | src/ingest/mapping.py:235-305 | As written, a lone column whose normal form is empty, with no history, is mapped with confidence 1.0 to the first schema field that has an alias, and nothing is left unmapped. |
| Mapping.EmptyColumnUnmapped | src/ingest/mapping.py:281-303 | With the corrected score, the same column maps to no field and is reported unmapped when every alias is non-empty. |
| Mapping.AliasStepMapsNothing | src/ingest/mapping.py:281-300 | With the corrected score, the alias step leaves an empty draft empty for such a column. |
| Mapping.FieldConfidence | src/ingest/mapping.py:382-392 | A field's confidence is 1.0 when one of its aliases equals the name (and only then under the corrected score), is at least every alias's score, and is one of those scores or 0. |
| Mapping.AllSuggestions | src/ingest/mapping.py:381-392 | One candidate per schema field, in schema order. |
| Mapping.GetSuggestions | src/ingest/mapping.py:369-399 | For either variant, the suggestions are ordered most confident first, hold exactly the fields with a positive score, and each score is at most 1. |
| Mapping.SuggestionsExact | src/ingest/mapping.py:387-389 | A field with an alias equal to the normalised column name is suggested with full confidence; under the corrected score only such a field is. |
| Mapping.ContainedNameSuggestedFullAsWritten | src/ingest/mapping.py:390-392 | As written, a normalised name strictly inside a longer alias is also suggested with full confidence. |
| Mapping.SuggestionsStable | src/ingest/mapping.py:397-398 | Fields with equal confidence keep their schema order. |
| Mapping.RecordCorrectionStep | src/ingest/mapping.py:431-438 | Recording one correction keeps every stored pair and its flag, leaves other fields' entries as they were, and leaves a correction entry for the field. |
| Mapping.RecordIfCorrected | src/ingest/mapping.py:420-438 | Only a corrected field is recorded, and then as a user correction. |
| Mapping.StableKeepsCorrection | src/ingest/mapping.py:163-167 | A recorded correction is never lost by later recordings. |
| Mapping.RecordAll | src/ingest/mapping.py:420-438 | Recording a sequence of fields leaves the blacklist and other schema types alone, changes nothing when no field was corrected, and leaves a correction entry for every corrected field. |
| Mapping.RecordAllCompose | src/ingest/mapping.py:420-438 | The effect of recording the rest of the fields composes with the effect of recording the first. |
| Mapping.RecordUserCorrections | src/ingest/mapping.py:401-438 | Without a history nothing is recorded; otherwise the blacklist and other schema types are untouched, a correction entry exists for every corrected field, and entries of uncorrected fields are unchanged. |
| Mapping.AcceptingAutoMapRecordsNothing | src/ingest/mapping.py:424-431 | Accepting the automatic mapping unchanged records nothing in the history. |
| ImportView.Selected | src/ui/views/import_view.py:46-64 | A selection equal to the automatic mapping keeps its confidence and automatic flag; any other selection is manual with confidence 1.0. |
| ImportView.RequiredNames | src/ui/views/import_view.py:67-71 | Lists exactly the schema's required fields, in schema order. |
| ImportView.SelectedMappings | src/ui/views/import_view.py:46-64 | One mapping per selected field, with the selected column; the columns used are exactly the selected ones. |
| ImportView.UnusedColumns | src/ui/views/import_view.py:73-74 | The file's columns nobody selected, each once per occurrence and in file order. |
| ImportView.MissingRequired | src/ui/views/import_view.py:67-71 | The required fields nobody selected, in schema order. |
| Seqs.FilterSubseq | src/ui/views/import_view.py:74 | A filtering comprehension keeps the elements it selects in their original order. |
| ImportView.BuildMappingResult | src/ui/views/import_view.py:24-80 | The fields mapped are exactly those selected, each to its selected column. The missing list is the required fields not selected, in schema order. The unmapped columns are the file's columns nobody selected, in file order. |
| ImportView.Duplicates | src/ui/views/import_view.py:192-193 | There are no duplicate columns exactly when no column serves two fields. |
| ImportView.HasErrors | src/ui/views/import_view.py:180-204 | The screen shows an error exactly when a required field is missing or two fields share a column. |
| ImportView.AutoMapErrorsIffIncomplete | src/ui/views/import_view.py:189-204 | For an automatic mapping the error flag is raised exactly when a required field is unmapped, since automatic mapping never shares a column. |
| ImportView.Proposed | src/ui/views/import_view.py:114-139 | The dropdowns start at the current mapping: one selection per mapped field, naming its column. |
| ImportView.AcceptingProposalKeepsMapping | src/ui/views/import_view.py:46-74 | Accepting every proposed selection rebuilds the same mappings, with the unmapped columns and missing fields they imply. |
| ImportView.AcceptingProposalKeepsAutoMap | src/ui/views/import_view.py:24-80 | Accepting the automatic mapping unchanged gives back the automatic result: same mappings, same unmapped columns, same missing fields. |
| Units.LengthToMm | src/ingest/units.py:26-31 | Every length factor is positive, and only millimetres convert with factor 1. |
| Units.WeightToKg | src/ingest/units.py:33-37 | Every weight factor is positive, and only kilograms convert with factor 1. |
| Units.Clean | src/ingest/units.py:80-81 | Keeps exactly the present positive values, in order. |
| Units.Take | src/ingest/units.py:97 | The first n values, or all of them when there are fewer. |
| Units.Ascending | src/ingest/units.py:102 | A sorted reordering of the values. |
| Units.UpperMedian | src/ingest/units.py:102 | The median is one of the values, with at least half of the sorted values at or below it and the rest at or above it. |
| Units.MaxOf | src/ingest/units.py:103 | The maximum is one of the values and bounds them all. |
| Units.LengthFromName | src/ingest/units.py:185-202 | The name hints are tried in order mm, cm, m, inch: each unit is chosen exactly when its hint is present and no earlier one is, and none when no hint matches. |
| Units.WeightFromName | src/ingest/units.py:185-211 | The name hints are tried in order kg, g, lb, with the same first-hint-wins rule. |
| Units.DetectLengthUnit | src/ingest/units.py:66-129 | No usable value gives millimetres with confidence 0; a unit in the name wins with confidence 0.9; otherwise metres exactly when the median is below 5, centimetres exactly when it is below 100 and the maximum below 500, and millimetres exactly in the remaining case (never inches). The samples are the first ten usable values, converted with the chosen unit's factor. |
| Units.DetectWeightUnit | src/ingest/units.py:131-183 | No usable value gives kilograms with confidence 0; a unit in the name wins with confidence 0.9; otherwise grams exactly when the median exceeds 500 and kilograms exactly when it does not (never pounds). |
| Units.SmallValuesAreMetres | src/ingest/units.py:111-114 | A column whose values are all below 5 is read as metres. |
| Units.MidValuesAreCentimetres | src/ingest/units.py:115-118 | A column whose values all lie in [5, 100) is read as centimetres. |
| Units.LargeValuesAreMillimetres | src/ingest/units.py:119-122 | A column whose values are all at least 100 is read as millimetres. |
| Units.WeightByMagnitude | src/ingest/units.py:171-176 | Weights all above 500 are read as grams; weights all at most 500 as kilograms. |
| Units.SuffixHints | src/ingest/units.py:194-205 | "length_mm" names millimetres and "weight_kg" names kilograms. |
| Units.NameHintWins | src/ingest/units.py:90-99 | A column named with its unit is read in that unit with confidence 0.9, whatever its values. |
| Units.InsideWordReadsAsInches | src/ingest/units.py:200-201 | Any name containing "in" without an earlier hint reads as inches, even when "in" is inside a word. |
| Units.TrailingGReadsAsGrams | src/ingest/units.py:206-207 | Any name ending in "g" without a kilogram hint reads as grams. |
| Units.Present | src/ingest/units.py:242 | Drops the null cells and keeps every present value. |
| Units.Column | src/ingest/units.py:242 | The numeric column's cells, one per row. |
| Units.DimensionUnit | src/ingest/units.py:240-247 | A given unit is used as is; without one, detection on the first 100 present length values, hinted by the caller's name of the length column, decides when enabled, and millimetres otherwise. |
| Units.WeightUnitOf | src/ingest/units.py:279-285 | A given unit is used as is; without one, detection on the first 100 present weights, hinted by the caller's name of the weight column, decides when enabled, and kilograms otherwise. |
| Units.ConvertDimensionsToMm | src/ingest/units.py:220-259 | Exactly length, width and height are multiplied by the unit's factor, every other cell and the row count are unchanged, and millimetre input is returned as is. |
| Units.ConvertWeightToKg | src/ingest/units.py:261-295 | Exactly the weight is multiplied by the unit's factor, every other cell is unchanged, and kilogram input is returned as is. |
| Units.ConvertedFrameIsStable | src/ingest/units.py:249-252 | Converting to millimetres and then declaring the result millimetres changes nothing more. |
| Units.NoLengthHint | src/ingest/units.py:194-202 | A lower-case name without `_`, `(` or `i` that ends in neither "mm" nor "cm" gives no length hint. |
| Units.NoWeightHint | src/ingest/units.py:204-210 | A lower-case name without `_`, `(`, `l` or `p` that does not end in "g" gives no weight hint. |
| Units.LengthNameHasNoHint | src/ingest/pipeline.py:95-103 | "length", the name the ingest pipeline passes for the length column, gives no hint, so the values decide the unit. |
| Units.WeightNameHasNoHint | src/ingest/pipeline.py:110-116 | "weight", the name the ingest pipeline passes for the weight column, gives no hint. |
| Units.PlainMetreUnit | src/ingest/units.py:239-244 | With auto-detection, no given unit and a hint-free column name, present lengths all in (0, 5) are detected as metres. |
| Units.PlainMetreColumnScaled | src/ingest/units.py:239-259 | In that case length, width and height of every row are multiplied by 1000. |
| Units.PlainGramColumnScaled | src/ingest/units.py:277-295 | With auto-detection, no given unit and a hint-free column name, present weights all above 500 are read as grams, and every weight is multiplied by 0.001. |
| Readers.BaseName | src/ingest/readers.py:39 | The last path component: a tail of the path holding no '/'. |
| Readers.LastIndexOf | src/ingest/readers.py:39 | The position of the last occurrence of a character, or none exactly when it does not occur. |
| Readers.Suffix | src/ingest/readers.py:39 | The suffix is empty or a dot followed by at least one character and no further dot, ends the path, and is shorter than the file name, so a leading-dot name has no suffix. |
| Readers.ExtensionType | src/ingest/readers.py:16-22 | Exactly the five listed extensions have a file type. |
| Readers.DetectFileType | src/ingest/readers.py:37-43 | Succeeds exactly when the lower-cased suffix is one of the listed extensions, giving its type; otherwise fails naming the extension. |
| Readers.FileTypeIgnoresCase | src/ingest/readers.py:39 | Paths whose suffixes differ only in case get the same answer. |
| Readers.Total | src/ingest/readers.py:58-61 | A separator's count over the sample is zero exactly when no line contains it. |
| Readers.Busiest | src/ingest/readers.py:64 | The chosen separator has the highest count, and every earlier one in the list has a strictly lower count. |
| Readers.DetectSeparator | src/ingest/readers.py:45-70 | The result is one of ';', ',', tab and '|'; ',' when none occurs; otherwise the most frequent, with ties going to the earliest in that list. |
| Readers.OnlySeparatorChosen | src/ingest/readers.py:58-70 | When only one separator occurs in the sample, it is chosen. |
| Readers.TieGoesToSemicolon | src/ingest/readers.py:60-64 | ';' wins whenever it occurs and no separator occurs more often. |
| Readers.DetectEncoding | src/ingest/readers.py:72-84 | "utf-8-sig" exactly when the file starts with the UTF-8 byte-order mark; "utf-8" otherwise, including when the file cannot be read. |
| Readers.BomDecides | src/ingest/readers.py:76-84 | A marked file reads as "utf-8-sig"; a file whose first byte is not 0xEF reads as "utf-8". |
| Readers.NormalizeColumn | src/ingest/readers.py:170-174 | A normalised header holds only lower-case letters, digits and '_', and is never longer than the original. |
| Readers.NormalizeColumnIdempotent | src/ingest/readers.py:170-174 | Normalising a header twice is the same as once. |
| Readers.CleanNameKept | src/ingest/readers.py:170-174 | A header already made of lower-case letters, digits and '_' is kept as is. |
| Readers.NormalizeColumns | src/ingest/readers.py:166-176 | Every header is renamed to its normal form, in column order. |
| Cleaning.DropChar | src/ingest/cleaning.py:22 | Removes every occurrence of the character and nothing else. |
| Cleaning.MapCharCount | src/ingest/cleaning.py:23 | After replacing one character by another, the second occurs as often as both did before. |
| Cleaning.DropCharAt | src/ingest/cleaning.py:22 | A kept character moves left by exactly the number of removed characters before it. |
| Cleaning.DropCharPlaces | src/ingest/cleaning.py:22 | Each kept character stays in order, moved left by the number of removed characters before it. |
| Cleaning.European | src/ingest/cleaning.py:19-24 | On the European path no comma is left, each comma became a dot, and every original dot is gone. Position by position, every non-dot character of the input appears in order, with a comma written as a dot. |
| Cleaning.CleanNumericText | src/ingest/cleaning.py:6-29 | A null stays null; a stripped value without a comma is kept as is; one with a comma has its dots removed and its commas turned into dots, character by character in order. |
| Cleaning.ThousandsAndDecimal | src/ingest/cleaning.py:8-13 | "1.234,56"-style values become "1234.56". |
| Cleaning.DotDecimalKept | src/ingest/cleaning.py:17-27 | "1.5"-style values, without a comma, are left untouched. |
| Paths.SanitizeName | src/core/paths.py:133-148 | The name keeps only letters, digits, '_' and '-', with spaces turned into underscores, in order, cut to at most 50 characters; it is never longer than the input. |
| Paths.SanitizeIdempotent | src/core/paths.py:133-148 | Sanitising a sanitised name changes nothing. |
| Paths.SpacesBecomeUnderscores | src/core/paths.py:142-148 | A short name of letters, digits and spaces keeps every character, with its spaces as underscores. |
| Paths.SeparatorsDropped | src/core/paths.py:144-146 | No '/' or '.' survives, so a client name cannot leave its directory. |
| Paths.RunsDir | src/core/paths.py:37-40 | The runs directory is "runs" directly under the base directory. |
| Paths.Join | src/core/paths.py:66 | Joining a name adds it as the last segment; an empty name leaves the path unchanged, as pathlib does. |
| Paths.ClientDir | src/core/paths.py:56-66 | A name that sanitises to nothing gives the runs directory itself. Any other name gives one segment directly under the runs directory: the sanitised name, with no separator or dot. |
| Paths.RunDir | src/core/paths.py:68-81 | A run's directory lies under its client's directory. A non-empty run id, or the time stamp when no id is given, adds one segment with that name; an empty one adds nothing. |
| Paths.RunFolder | src/core/paths.py:83-89 | Staging and reports are named folders directly inside the run directory. |
| Paths.RunLayout | src/core/paths.py:68-89 | A run directory lies below its client directory, one level down for a non-empty run id, and staging and reports are distinct folders directly inside it. |
| Paths.ClientDirsCoincide | src/core/paths.py:56-66 | Two clients share a directory exactly when their names sanitise to the same text. |
| Paths.UnsafeNameSharesRunsDir | src/core/paths.py:56-81 | A client named "!!!" keeps its runs directly in the runs directory, so its run "acme" is client "acme"'s directory. |
| Paths.LatestRun | src/core/paths.py:118-130 | No runs give no latest run; otherwise the latest is the run directory of a name no other run name exceeds in string order. |
| Paths.LatestRunIgnoresListingOrder | src/core/paths.py:122-130 | The latest run does not depend on the order in which the directory lists the runs. |
| Frame.DuplicatedSkus | src/quality/dq_lists.py:189-191 | Lists each SKU value that occurs more than once exactly once, and no other. |

## Left out

- File, YAML and database I/O: reading spreadsheets and CSV files, loading and saving the carrier list, the mapping history and the shift schedules, directory listing and creation, the DuckDB runner and every report writer. The history store is modelled in memory; the directory listing is the `runs` parameter of `Paths.LatestRun`; the first bytes and sample lines are parameters of `Readers.DetectEncoding` and `Readers.DetectSeparator`.
- Paths.RunDir: a run id is joined as one segment. One holding a '/' or starting at the root would be split or re-rooted by pathlib; run ids come from the clock stamp or the directory listing, which hold neither.
- The clock: `datetime.now()` becomes the `now` parameter of `Paths.RunDir`, and the history's `last_used` stamp is not modelled, since it only records when a mapping was used.
- Streamlit rendering: every screen except the selection builder and the error flag of the import view. The dropdown state is modelled as its outcome, the map of selections.
- polars mechanics: frames are sequences of records, group order is taken to be first occurrence, and dtype casts are left out. Column order and dtypes matter only at the concat of `consolidate_duplicates`, where whether the frame's schema matches the `group_by` output is the `sameSchema` parameter. `apply_mapping` (a select and rename) and `get_source_column` (a map lookup) are not modelled.
- `_build_alias_index`: the index it builds is never read by the mapping code shown, so it has no effect on any result.
- The float cast at the end of `clean_numeric_column`: the model is the string rewrite before it.
- Timestamp, date and time parsing: dates are day numbers and clock times are minutes, given already parsed.
- Rounding and number formatting, such as `round(cumulative_pct, 2)`: percentages are exact reals.
- Python's Unicode semantics of `lower`, `upper`, `strip`, `isalnum` and `\s`: the model is ASCII only.
- The grouping steps of the performance analysis (`analyze`, the date-hour and daily grouping, hourly profiles and trends): the reductions take pre-bucketed counts, and the weekday and hourly profiles are not modelled.
- The value of the imputation statistic: `Impute.Statistic` states only that the median, mean or mode lies between the smallest and largest valid value; the mode is chosen among the valid values with the earliest winning a tie.
- `OrdersProcessor.normalize` and the order-row timestamp parsing: the orders frame is taken already normalised.
- A rename clash after `_normalize_columns` (two headers normalising alike) raises a polars error; `Readers.NormalizeColumns` returns the names and does not detect the clash.
- Mapping.NormalizeColumnNameIdempotent: proved only for names whose whitespace is the space character; `Mapping.TabNameNotIdempotent` shows a tab breaks idempotence.
- Masterdata.ConsolidateGroup: the `orientation_constraint` column is not modelled, since the masterdata frame carries only the SKU, the five numeric columns and their flags; the source keeps its first value per SKU, like the flags.
- SkuNormalize.DetectCollisions: lists collisions in order of first appearance of the key, where Python uses dict insertion order, which is the same.
- DqLists.SuspectOutliers: states only that every item is a real suspect value; that every suspect value is listed is stated per column by `DqLists.SuspectItems`.
- Units.ConvertDimensionsToMm: requires the three dimension columns to exist, as its one caller in src/ingest/pipeline.py checks first. The source fails with a polars error when the length column is missing and detection runs, because it reads that column before the factor test, and when any of the three is missing and the factor is not 1. Only with detection off and millimetres does it return a frame without them untouched.
- Units.ConvertWeightToKg: requires the weight column to exist, as its one caller checks first. The source fails when it is missing and detection runs or the factor is not 1.
- ImportView.Proposed: proposes every current mapping; the dropdown falls back to "don't map" when the mapped column is not a file column, which never happens for an automatic mapping.
- The legacy pandas prototype with its different fit check, the test fixture generator, and the package re-export files.

## Findings

| source | as written | input that shows it | evidently intended | confidence | as-written member | corrected member |
|---|---|---|---|---|---|---|
| src/quality/dq_metrics.py:222-237 | With the zero flag on, the null test is a sum of per-field comparisons; a null cell makes the sum null, so a row whose required fields are all null is counted partial, not empty | a frame with one row whose four required fields are all null | the row counts as empty, as it does with the zero flag off | medium, not executed | DqMetrics.AllNullRowCountedPartial | DqMetrics.AllNullRowEmpty |
| src/ingest/mapping.py:335-339 | The partial score is the alias length over the longer length, so a column name contained in a longer alias scores 1.0, the exact-match score; the same formula is at lines 390-392 | the column "_", which normalises to "", is mapped to the first schema field with confidence 1.0 when no history applies | shorter length over longer length, so only an exact match scores 1.0 and an empty name matches nothing | medium, not executed | Mapping.EmptyColumnMappedAsWritten | Mapping.EmptyColumnUnmapped |
| src/ingest/mapping.py:264-265 | History entries are stored under the history's key (no trailing '_' removal) but looked up under the wizard's key, which strips trailing underscores | the column "A-" is stored as "a_" and looked up as "a", so its recorded mapping is never reused | look up with the same key the history stores | medium, not executed | Mapping.RecordedEntryMissedAsWritten | Mapping.RecordedColumnFound |
| src/model/masterdata.py:67-70 | The unique rows are stacked on the `group_by` output with a vertical `pl.concat`, which needs the same column names, order and dtypes. The `group_by` output puts the SKU first, then the present numeric columns in list order, then the present flags, then `orientation_constraint` when present; it drops only the other columns, and "mean" turns an integer column into a float one | a frame whose columns are in the order weight_kg, sku, length_mm, width_mm, height_mm (the wizard puts history matches first), with SKU "A" on two rows | stack the consolidated rows under the unique ones column by column, e.g. with the unique rows' column order | medium, not executed | Masterdata.MismatchedSchemaFails | Masterdata.Consolidate |
