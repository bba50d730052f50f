/** The pure reductions of src/analytics/performance.py. Grouping by SKU,
    by date and by (date, hour) is done by the caller: the functions here take
    the grouped counts. */
module Performance {
  import opened Wrappers
  import opened Types
  import Seqs
  import Sorting
  import Shifts

  // ---------------------------------------------------------------------
  // SKU Pareto and ABC classes (`_calculate_sku_pareto`)
  // ---------------------------------------------------------------------

  /** One group of the order lines by SKU: its line count, unit sum and number
      of distinct orders. */
  datatype SkuTotals = SkuTotals(sku: Option<string>, totalLines: nat, totalUnits: int, totalOrders: nat)

  datatype AbcClass = A | B | C

  datatype SkuFrequency = SkuFrequency(
    sku: Option<string>,
    totalLines: nat,
    totalUnits: int,
    totalOrders: nat,
    frequencyRank: nat,
    cumulativePct: real,
    abcClass: AbcClass)

  /** A covers the first 80 % of the lines, B the next 15 %, C the rest. */
  function Abc(cumulativePct: real): AbcClass
  {
    if cumulativePct <= 80.0 then A
    else if cumulativePct <= 95.0 then B
    else C
  }

  function AbcOrder(c: AbcClass): nat
  {
    match c
    case A => 0
    case B => 1
    case C => 2
  }

  function LinesKey(g: SkuTotals): real { g.totalLines as real }

  /** Sum of the line counts. */
  function LinesSum(s: seq<SkuTotals>): nat
  {
    if |s| == 0 then 0 else s[0].totalLines + LinesSum(s[1..])
  }

  lemma {:induction false} LinesSumZero(s: seq<SkuTotals>)
    ensures LinesSum(s) == 0 <==> forall i :: 0 <= i < |s| ==> s[i].totalLines == 0
  {
    if |s| > 0 {
      LinesSumZero(s[1..]);
      assert forall i :: 1 <= i < |s| ==> s[i] == s[1..][i - 1];
    }
  }

  lemma {:induction false} LinesSumPrefix(s: seq<SkuTotals>, i: nat, j: nat)
    requires i <= j <= |s|
    ensures LinesSum(s[..i]) <= LinesSum(s[..j])
  {
    if i > 0 {
      LinesSumPrefix(s[1..], i - 1, j - 1);
      assert s[..i][1..] == s[1..][..i - 1];
      assert s[..j][1..] == s[1..][..j - 1];
    }
  }

  /** `cumulative / total * 100`. */
  function Pct(part: nat, total: nat): real
    requires total > 0
  {
    part as real / total as real * 100.0
  }

  lemma PctMonotone(a: nat, b: nat, total: nat)
    requires a <= b && total > 0
    ensures Pct(a, total) <= Pct(b, total)
  {
    var t := total as real;
    assert a as real / t <= b as real / t by {
      assert (b as real - a as real) / t >= 0.0;
    }
  }

  lemma PctWhole(total: nat)
    requires total > 0
    ensures Pct(total, total) == 100.0
  {
    assert total as real / total as real == 1.0;
  }

  function Totals(f: SkuFrequency): SkuTotals
  {
    SkuTotals(f.sku, f.totalLines, f.totalUnits, f.totalOrders)
  }

  /** The SKU groups a ranking was built from, in rank order. */
  function Groups(r: seq<SkuFrequency>): (g: seq<SkuTotals>)
    ensures |g| == |r|
  {
    seq(|r|, i requires 0 <= i < |r| => Totals(r[i]))
  }

  /** Ranks `rank`, `rank + 1`, ... with the running line count started at
      `acc`. */
  function Ranked(s: seq<SkuTotals>, acc: nat, rank: nat, total: nat): (r: seq<SkuFrequency>)
    requires total > 0
    ensures |r| == |s|
    ensures forall i :: 0 <= i < |r| ==> Totals(r[i]) == s[i] && r[i].frequencyRank == rank + i
    ensures forall i :: 0 <= i < |r| ==> r[i].cumulativePct == Pct(acc + LinesSum(s[..i + 1]), total)
    ensures forall i :: 0 <= i < |r| ==> r[i].abcClass == Abc(r[i].cumulativePct)
    decreases |s|
  {
    if |s| == 0 then []
    else
      var cum := acc + s[0].totalLines;
      var pct := Pct(cum, total);
      var rest := Ranked(s[1..], cum, rank + 1, total);
      assert s[..1] == [s[0]];
      assert LinesSum(s[..1]) == s[0].totalLines by {
        assert s[..1][1..] == [];
      }
      forall k | 0 <= k < |rest|
        ensures rest[k].cumulativePct == Pct(acc + LinesSum(s[..k + 2]), total)
      {
        assert s[..k + 2][1..] == s[1..][..k + 1];
      }
      var r := [SkuFrequency(s[0].sku, s[0].totalLines, s[0].totalUnits, s[0].totalOrders, rank, pct, Abc(pct))] + rest;
      assert forall i :: 1 <= i < |r| ==> r[i] == rest[i - 1];
      r
  }

  lemma AllZeroPermutation(a: seq<SkuTotals>, b: seq<SkuTotals>)
    requires multiset(a) == multiset(b)
    ensures (forall i :: 0 <= i < |a| ==> a[i].totalLines == 0) <==> (forall i :: 0 <= i < |b| ==> b[i].totalLines == 0)
  {
    forall i | 0 <= i < |a|
      ensures a[i] in b
    {
      assert a[i] in multiset(a);
    }
    forall i | 0 <= i < |b|
      ensures b[i] in a
    {
      assert b[i] in multiset(b);
    }
  }

  /** The ranking of groups already in descending line order. */
  function RankSorted(sorted: seq<SkuTotals>): (r: seq<SkuFrequency>)
    requires Sorting.SortedDesc(sorted, LinesKey) && LinesSum(sorted) > 0
    ensures Groups(r) == sorted
    ensures forall i :: 0 <= i < |r| ==> r[i].frequencyRank == i + 1
    ensures forall i, j :: 0 <= i < j < |r| ==> r[i].totalLines >= r[j].totalLines
    ensures forall i :: 0 <= i < |r| ==> r[i].cumulativePct == Pct(LinesSum(sorted[..i + 1]), LinesSum(sorted))
    ensures forall i :: 0 <= i < |r| ==> r[i].abcClass == Abc(r[i].cumulativePct)
  {
    var r := Ranked(sorted, 0, 1, LinesSum(sorted));
    assert forall i :: 0 <= i < |r| ==> r[i].totalLines == sorted[i].totalLines;
    r
  }

  /** `_calculate_sku_pareto`: the groups by descending line count, ranked from
      1, each with the share of all lines covered up to and including it.
      Empty without an `sku` column or when no group has a line. The order of
      groups with equal line counts is unspecified in the source; the model
      keeps their input order. */
  function SkuPareto(hasSkuColumn: bool, groups: seq<SkuTotals>): (r: seq<SkuFrequency>)
    ensures r == [] <==> !hasSkuColumn || forall i :: 0 <= i < |groups| ==> groups[i].totalLines == 0
    ensures r != [] ==> |r| == |groups| && multiset(Groups(r)) == multiset(groups)
    ensures r != [] ==> LinesSum(Groups(r)) > 0
    ensures forall i :: 0 <= i < |r| ==> r[i].frequencyRank == i + 1
    ensures forall i, j :: 0 <= i < j < |r| ==> r[i].totalLines >= r[j].totalLines
    ensures r != [] ==> forall i :: 0 <= i < |r| ==>
      r[i].cumulativePct == Pct(LinesSum(Groups(r)[..i + 1]), LinesSum(Groups(r)))
    ensures forall i :: 0 <= i < |r| ==> r[i].abcClass == Abc(r[i].cumulativePct)
  {
    if !hasSkuColumn then []
    else
      var sorted := Sorting.SortDesc(groups, LinesKey);
      var total := LinesSum(sorted);
      LinesSumZero(sorted);
      LinesSumZero(groups);
      AllZeroPermutation(sorted, groups);
      if total == 0 then [] else RankSorted(sorted)
  }

  lemma AbcMonotone(x: real, y: real)
    requires x <= y
    ensures AbcOrder(Abc(x)) <= AbcOrder(Abc(y))
  {
  }

  /** The cumulative share never decreases along the ranking, the last one is
      100 %, and the classes go A, then B, then C. */
  lemma ParetoShape(hasSkuColumn: bool, groups: seq<SkuTotals>)
    ensures var r := SkuPareto(hasSkuColumn, groups);
      (forall i, j :: 0 <= i < j < |r| ==> r[i].cumulativePct <= r[j].cumulativePct) &&
      (forall i, j :: 0 <= i < j < |r| ==> AbcOrder(r[i].abcClass) <= AbcOrder(r[j].abcClass)) &&
      (r != [] ==> r[|r| - 1].cumulativePct == 100.0)
  {
    var r := SkuPareto(hasSkuColumn, groups);
    if r != [] {
      RankingShape(r, Groups(r));
    }
  }

  /** The shape of a ranking whose shares are running totals of `g`. */
  lemma {:induction false} RankingShape(r: seq<SkuFrequency>, g: seq<SkuTotals>)
    requires |r| == |g| > 0 && LinesSum(g) > 0
    requires forall i :: 0 <= i < |r| ==> r[i].cumulativePct == Pct(LinesSum(g[..i + 1]), LinesSum(g))
    requires forall i :: 0 <= i < |r| ==> r[i].abcClass == Abc(r[i].cumulativePct)
    ensures forall i, j :: 0 <= i < j < |r| ==> r[i].cumulativePct <= r[j].cumulativePct
    ensures forall i, j :: 0 <= i < j < |r| ==> AbcOrder(r[i].abcClass) <= AbcOrder(r[j].abcClass)
    ensures r[|r| - 1].cumulativePct == 100.0
  {
    var total := LinesSum(g);
    forall i, j | 0 <= i < j < |r|
      ensures r[i].cumulativePct <= r[j].cumulativePct
      ensures AbcOrder(r[i].abcClass) <= AbcOrder(r[j].abcClass)
    {
      LinesSumPrefix(g, i + 1, j + 1);
      PctMonotone(LinesSum(g[..i + 1]), LinesSum(g[..j + 1]), total);
      AbcMonotone(r[i].cumulativePct, r[j].cumulativePct);
    }
    assert g[..|r|] == g;
    PctWhole(total);
  }

  // ---------------------------------------------------------------------
  // KPI (`_calculate_kpi`)
  // ---------------------------------------------------------------------

  /** One order line as far as the KPI totals look at it. */
  datatype OrderLine = OrderLine(orderId: Option<string>, sku: Option<string>, quantity: Option<int>)

  /** Lines, distinct orders and units of one (date, hour) bucket. */
  datatype DateHourMetrics = DateHourMetrics(date: int, hour: int, lines: nat, orders: nat, units: int)

  datatype PerformanceKpi = PerformanceKpi(
    totalLines: nat,
    totalOrders: nat,
    totalUnits: int,
    uniqueSku: nat,
    avgLinesPerHour: real,
    avgOrdersPerHour: real,
    avgUnitsPerHour: real,
    avgUniqueSkuPerHour: real,
    avgLinesPerOrder: real,
    avgUnitsPerLine: real,
    avgUnitsPerOrder: real,
    peakLinesPerHour: int,
    peakOrdersPerHour: int,
    peakUnitsPerHour: int,
    p90LinesPerHour: int,
    p95LinesPerHour: int,
    p99LinesPerHour: int)

  function IntSum(s: seq<int>): int
  {
    if |s| == 0 then 0 else s[0] + IntSum(s[1..])
  }

  /** `a / b if b > 0 else 0`. */
  function Ratio(a: int, b: nat): (r: real)
    ensures b == 0 ==> r == 0.0
    ensures b > 0 ==> r * b as real == a as real
  {
    if b > 0 then a as real / b as real else 0.0
  }

  /** Python `max` of a non-empty list. */
  function MaxOf(s: seq<int>): (m: int)
    requires |s| > 0
    ensures forall i :: 0 <= i < |s| ==> s[i] <= m
    ensures m in s
  {
    if |s| == 1 then s[0]
    else
      var rest := MaxOf(s[1..]);
      assert forall i :: 1 <= i < |s| ==> s[i] == s[1..][i - 1];
      if s[0] >= rest then s[0] else rest
  }

  /** `min(int(n * p / 100), n - 1)` for the percentile `p`. */
  function PercentileIndex(n: nat, p: nat): (k: nat)
    requires n > 0 && p <= 100
    ensures k < n
  {
    var raw := n * p / 100;
    if raw < n - 1 then raw else n - 1
  }

  /** A higher percentile never picks an earlier position. */
  lemma PercentileMonotone(n: nat, p: nat, q: nat)
    requires n > 0 && p <= q <= 100
    ensures PercentileIndex(n, p) <= PercentileIndex(n, q)
  {
    var a := n * p;
    var b := n * q;
    assert b - a == n * (q - p);
    HundredthsMonotone(a, b);
  }

  lemma HundredthsMonotone(a: int, b: int)
    requires a <= b
    ensures a / 100 <= b / 100
  {
    assert a == 100 * (a / 100) + a % 100;
    assert b == 100 * (b / 100) + b % 100;
  }

  /** The index `PercentileIndex(n, p)` has at least `p`% of the `n`
      positions up to and including it, and at most `p`% before it. */
  lemma PercentileIndexRank(n: nat, p: nat)
    requires n > 0 && p <= 100
    ensures (PercentileIndex(n, p) + 1) * 100 >= p * n
    ensures PercentileIndex(n, p) * 100 <= p * n
  {
    var raw := n * p / 100;
    assert raw * 100 <= n * p < (raw + 1) * 100 by {
      assert n * p == 100 * raw + (n * p) % 100;
    }
    assert p * n <= 100 * n;
  }

  function AtMost(v: int): int -> bool { x => x <= v }

  function Below(v: int): int -> bool { x => x < v }

  /** In an ascending sequence the first `k + 1` values lie at or below
      position `k`, and none from `k` on lies strictly below it. */
  lemma SortedRank(r: seq<int>, k: nat)
    requires SortedAsc(r) && k < |r|
    ensures Seqs.Count(r, AtMost(r[k])) >= k + 1
    ensures Seqs.Count(r, Below(r[k])) <= k
  {
    assert forall i :: 0 <= i < k + 1 ==> AtMost(r[k])(r[i]);
    assert forall i :: k <= i < |r| ==> !Below(r[k])(r[i]);
    Seqs.CountPrefix(r, AtMost(r[k]), k + 1);
    Seqs.CountPrefix(r, Below(r[k]), k);
  }

  /** The value at position `k` of the ascending sort has at least `k + 1`
      values at or below it and at most `k` values strictly below it. */
  lemma RankBounds(s: seq<int>, k: nat)
    requires k < |s|
    ensures Seqs.Count(s, AtMost(SortAsc(s)[k])) >= k + 1
    ensures Seqs.Count(s, Below(SortAsc(s)[k])) <= k
  {
    var r := SortAsc(s);
    Seqs.CountPermutation(s, r, AtMost(r[k]));
    Seqs.CountPermutation(s, r, Below(r[k]));
    SortedRank(r, k);
  }

  function Neg(x: int): real { -(x as real) }

  predicate SortedAsc(s: seq<int>)
  {
    forall i, j :: 0 <= i < j < |s| ==> s[i] <= s[j]
  }

  /** `sorted(values)`, ascending. */
  function SortAsc(s: seq<int>): (r: seq<int>)
    ensures SortedAsc(r)
    ensures multiset(r) == multiset(s)
    ensures |r| == |s|
  {
    var r := Sorting.SortDesc(s, Neg);
    assert forall i, j :: 0 <= i < j < |r| ==> Neg(r[i]) >= Neg(r[j]);
    r
  }

  /** In an ascending sort the last element is the maximum. */
  lemma LastIsMax(s: seq<int>)
    requires |s| > 0
    ensures SortAsc(s)[|s| - 1] == MaxOf(s)
  {
    var r := SortAsc(s);
    var m := MaxOf(s);
    assert r[|s| - 1] in multiset(s) by {
      assert r[|s| - 1] in multiset(r);
    }
    assert m in multiset(r);
    var k :| 0 <= k < |r| && r[k] == m;
    assert r[k] <= r[|s| - 1];
  }

  function LinesOf(dh: seq<DateHourMetrics>): (v: seq<int>)
    ensures |v| == |dh|
    ensures forall i :: 0 <= i < |v| ==> v[i] == dh[i].lines
  {
    seq(|dh|, i requires 0 <= i < |dh| => dh[i].lines as int)
  }

  function OrdersOf(dh: seq<DateHourMetrics>): (v: seq<int>)
    ensures |v| == |dh|
    ensures forall i :: 0 <= i < |v| ==> v[i] == dh[i].orders
  {
    seq(|dh|, i requires 0 <= i < |dh| => dh[i].orders as int)
  }

  function UnitsOf(dh: seq<DateHourMetrics>): (v: seq<int>)
    ensures |v| == |dh|
    ensures forall i :: 0 <= i < |v| ==> v[i] == dh[i].units
  {
    seq(|dh|, i requires 0 <= i < |dh| => dh[i].units)
  }

  function OrderIds(rows: seq<OrderLine>): (v: seq<Option<string>>)
    ensures |v| == |rows|
  {
    seq(|rows|, i requires 0 <= i < |rows| => rows[i].orderId)
  }

  function SkusOf(rows: seq<OrderLine>): (v: seq<Option<string>>)
    ensures |v| == |rows|
  {
    seq(|rows|, i requires 0 <= i < |rows| => rows[i].sku)
  }

  /** polars `sum` of the quantity column: nulls are skipped. */
  function QuantitySum(rows: seq<OrderLine>): int
  {
    if |rows| == 0 then 0
    else rows[0].quantity.GetOr(0) + QuantitySum(rows[1..])
  }

  /** `v` is a `p`th percentile of `lines`: at least `p`% of the values
      lie at or below it and at most `p`% strictly below it. */
  predicate Percentile(lines: seq<int>, p: nat, v: int)
  {
    Seqs.Count(lines, AtMost(v)) * 100 >= p * |lines| && Seqs.Count(lines, Below(v)) * 100 <= p * |lines|
  }

  /** The value at `PercentileIndex` of the ascending sort is a `p`th
      percentile: at least `p`% of the values lie at or below it and at
      most `p`% strictly below it. */
  lemma PercentileRank(lines: seq<int>, p: nat)
    requires |lines| > 0 && p <= 100
    ensures Percentile(lines, p, SortAsc(lines)[PercentileIndex(|lines|, p)])
  {
    var k := PercentileIndex(|lines|, p);
    PercentileIndexRank(|lines|, p);
    RankBounds(lines, k);
  }

  /** p90, p95 and p99 of the bucket line counts: the value at
      `PercentileIndex` of the ascending sort. */
  function LinePercentiles(lines: seq<int>): (p: (int, int, int))
    requires |lines| > 0
    ensures p.0 <= p.1 <= p.2 <= MaxOf(lines)
    ensures p.0 in lines && p.1 in lines && p.2 in lines
    ensures Percentile(lines, 90, p.0) && Percentile(lines, 95, p.1) && Percentile(lines, 99, p.2)
  {
    var n := |lines|;
    var sorted := SortAsc(lines);
    var i90 := PercentileIndex(n, 90);
    var i95 := PercentileIndex(n, 95);
    var i99 := PercentileIndex(n, 99);
    PercentileMonotone(n, 90, 95);
    PercentileMonotone(n, 95, 99);
    LastIsMax(lines);
    assert sorted[i90] in multiset(sorted) && sorted[i95] in multiset(sorted) && sorted[i99] in multiset(sorted);
    PercentileRank(lines, 90);
    PercentileRank(lines, 95);
    PercentileRank(lines, 99);
    (sorted[i90], sorted[i95], sorted[i99])
  }

  /** The KPI: totals over the order lines, then averages, peaks and
      percentiles over the (date, hour) buckets, all 0 without buckets. */
  function Kpi(rows: seq<OrderLine>, datehour: seq<DateHourMetrics>): (k: PerformanceKpi)
    ensures k.totalLines == |rows| && k.totalUnits == QuantitySum(rows)
    ensures k.totalOrders == |Seqs.Distinct(OrderIds(rows))| && k.uniqueSku == |Seqs.Distinct(SkusOf(rows))|
    ensures k.avgLinesPerOrder == Ratio(|rows|, k.totalOrders)
    ensures k.avgUnitsPerLine == Ratio(k.totalUnits, |rows|)
    ensures k.avgUnitsPerOrder == Ratio(k.totalUnits, k.totalOrders)
    ensures k.avgUniqueSkuPerHour == 0.0
    ensures |datehour| == 0 ==>
      k.avgLinesPerHour == 0.0 && k.avgOrdersPerHour == 0.0 && k.avgUnitsPerHour == 0.0 &&
      k.peakLinesPerHour == 0 && k.peakOrdersPerHour == 0 && k.peakUnitsPerHour == 0 &&
      k.p90LinesPerHour == 0 && k.p95LinesPerHour == 0 && k.p99LinesPerHour == 0
    ensures |datehour| > 0 ==>
      k.avgLinesPerHour == Ratio(IntSum(LinesOf(datehour)), |datehour|) &&
      k.avgOrdersPerHour == Ratio(IntSum(OrdersOf(datehour)), |datehour|) &&
      k.avgUnitsPerHour == Ratio(IntSum(UnitsOf(datehour)), |datehour|)
    ensures forall i :: 0 <= i < |datehour| ==>
      datehour[i].lines <= k.peakLinesPerHour && datehour[i].orders <= k.peakOrdersPerHour &&
      datehour[i].units <= k.peakUnitsPerHour
    ensures |datehour| > 0 ==> k.peakLinesPerHour in LinesOf(datehour)
    ensures k.p90LinesPerHour <= k.p95LinesPerHour <= k.p99LinesPerHour <= k.peakLinesPerHour
    ensures |datehour| > 0 ==> k.p90LinesPerHour in LinesOf(datehour) && k.p99LinesPerHour in LinesOf(datehour)
    ensures |datehour| > 0 ==> Percentile(LinesOf(datehour), 90, k.p90LinesPerHour)
    ensures |datehour| > 0 ==> Percentile(LinesOf(datehour), 95, k.p95LinesPerHour)
    ensures |datehour| > 0 ==> Percentile(LinesOf(datehour), 99, k.p99LinesPerHour)
  {
    var totalLines := |rows|;
    var totalOrders := |Seqs.Distinct(OrderIds(rows))|;
    var totalUnits := QuantitySum(rows);
    var uniqueSku := |Seqs.Distinct(SkusOf(rows))|;
    var n := |datehour|;
    if n > 0 then
      var lines := LinesOf(datehour);
      var p := LinePercentiles(lines);
      PerformanceKpi(totalLines, totalOrders, totalUnits, uniqueSku,
        Ratio(IntSum(lines), n), Ratio(IntSum(OrdersOf(datehour)), n), Ratio(IntSum(UnitsOf(datehour)), n), 0.0,
        Ratio(totalLines, totalOrders), Ratio(totalUnits, totalLines), Ratio(totalUnits, totalOrders),
        MaxOf(lines), MaxOf(OrdersOf(datehour)), MaxOf(UnitsOf(datehour)),
        p.0, p.1, p.2)
    else
      PerformanceKpi(totalLines, totalOrders, totalUnits, uniqueSku,
        0.0, 0.0, 0.0, 0.0,
        Ratio(totalLines, totalOrders), Ratio(totalUnits, totalLines), Ratio(totalUnits, totalOrders),
        0, 0, 0, 0, 0, 0)
  }

  lemma {:induction false} IntSumAtMost(s: seq<int>, m: int)
    requires forall i :: 0 <= i < |s| ==> s[i] <= m
    ensures IntSum(s) <= |s| * m
  {
    if |s| > 0 {
      IntSumAtMost(s[1..], m);
      assert |s| * m == m + (|s| - 1) * m;
    }
  }

  /** Every order has at least one line, so lines per order is at least 1 when
      there are lines. */
  lemma LinesPerOrderAtLeastOne(rows: seq<OrderLine>, datehour: seq<DateHourMetrics>)
    requires |rows| > 0
    ensures Kpi(rows, datehour).totalOrders > 0
    ensures Kpi(rows, datehour).avgLinesPerOrder >= 1.0
  {
    var ids := OrderIds(rows);
    assert ids[0] in Seqs.Distinct(ids);
    var b := |Seqs.Distinct(ids)|;
    assert 0 < b <= |rows|;
    RatioAtLeastOne(|rows|, b);
  }

  lemma RatioAtLeastOne(a: nat, b: nat)
    requires 0 < b <= a
    ensures Ratio(a, b) >= 1.0
  {
    assert (a as real - b as real) / b as real >= 0.0;
  }

  /** The average bucket never exceeds the peak bucket. */
  lemma AverageAtMostPeak(rows: seq<OrderLine>, datehour: seq<DateHourMetrics>)
    ensures Kpi(rows, datehour).avgLinesPerHour <= Kpi(rows, datehour).peakLinesPerHour as real
  {
    if |datehour| > 0 {
      var lines := LinesOf(datehour);
      var m := MaxOf(lines);
      IntSumAtMost(lines, m);
      AverageBelow(IntSum(lines), |datehour|, m);
    }
  }

  lemma AverageBelow(t: int, n: nat, m: int)
    requires n > 0 && t <= n * m
    ensures Ratio(t, n) <= m as real
  {
    assert t as real <= n as real * m as real;
    assert (n as real * m as real - t as real) / n as real >= 0.0;
    assert n as real * m as real / n as real == m as real;
  }

  // ---------------------------------------------------------------------
  // Daily rates, shift split and productive hours
  // ---------------------------------------------------------------------

  /** One day of order lines: line count, distinct orders, units and distinct
      SKUs. */
  datatype DayCounts = DayCounts(date: int, lines: nat, orders: nat, units: int, uniqueSku: nat)

  datatype DailyMetrics = DailyMetrics(
    date: int,
    lines: nat,
    orders: nat,
    units: int,
    uniqueSku: nat,
    linesPerHour: real,
    ordersPerHour: real,
    unitsPerHour: real)

  /** `_calculate_daily_metrics` after grouping: each count divided by the
      productive hours per shift; a zero divisor is Python's
      `ZeroDivisionError` on the first day. */
  function DailyRates(days: seq<DayCounts>, productiveHoursPerShift: real): (r: Result<seq<DailyMetrics>>)
    ensures r.Err? <==> |days| > 0 && productiveHoursPerShift == 0.0
    ensures r.Ok? ==> |r.value| == |days|
    ensures r.Ok? ==> forall i :: 0 <= i < |days| ==>
      var d := r.value[i];
      d.date == days[i].date && d.lines == days[i].lines && d.orders == days[i].orders &&
      d.units == days[i].units && d.uniqueSku == days[i].uniqueSku &&
      d.linesPerHour * productiveHoursPerShift == d.lines as real &&
      d.ordersPerHour * productiveHoursPerShift == d.orders as real &&
      d.unitsPerHour * productiveHoursPerShift == d.units as real
  {
    if |days| > 0 && productiveHoursPerShift == 0.0 then Err("division by zero")
    else
      Ok(seq(|days|, i requires 0 <= i < |days| =>
        DailyMetrics(days[i].date, days[i].lines, days[i].orders, days[i].units, days[i].uniqueSku,
          days[i].lines as real / productiveHoursPerShift,
          days[i].orders as real / productiveHoursPerShift,
          days[i].units as real / productiveHoursPerShift)))
  }

  datatype ShiftPerformance = ShiftPerformance(
    shiftType: ShiftType,
    totalHours: real,
    totalLines: int,
    totalOrders: int,
    totalUnits: int,
    linesPerHour: real,
    ordersPerHour: real,
    percentageOfWork: real)

  /** Python `int()` on a real: truncation toward zero. */
  function Trunc(x: real): (n: int)
    ensures TowardZero(x, n)
  {
    if x >= 0.0 then x.Floor else -((-x).Floor)
  }

  /** `n` is the largest integer not above `x`. */
  predicate FloorOf(x: real, n: int)
  {
    n as real <= x < n as real + 1.0
  }

  /** `n` is `x` with its fraction cut off: the floor of a non-negative
      `x`, the ceiling of a negative one. */
  predicate TowardZero(x: real, n: int)
  {
    (x >= 0.0 ==> n as real <= x < n as real + 1.0) && (x < 0.0 ==> n as real - 1.0 < x <= n as real)
  }

  /** The fraction of all hours a shift type worked; 0 without hours. */
  function Share(hours: real, total: real): (pct: real)
    requires hours > 0.0
    ensures total > 0.0 ==> pct > 0.0 && pct * total == hours
    ensures total <= 0.0 ==> pct == 0.0
  {
    if total > 0.0 then hours / total else 0.0
  }

  /** A non-negative quantity scaled by a share of at most 1 stays within
      [0, itself]. */
  lemma ScaledWithin(c: real, pct: real)
    requires pct >= 0.0
    ensures c >= 0.0 ==> c * pct >= 0.0
    ensures c >= 0.0 && pct <= 1.0 ==> c * pct <= c
  {
    if c >= 0.0 && pct <= 1.0 {
      assert c * (1.0 - pct) >= 0.0;
    }
  }

  /** `int(count * pct)`: the share `pct` of a count, truncated. A share
      of at most the whole count never exceeds it. */
  function Apportion(count: int, pct: real): (n: int)
    requires pct >= 0.0
    ensures TowardZero(count as real * pct, n)
    ensures count >= 0 ==> FloorOf(count as real * pct, n)
    ensures count >= 0 && pct <= 1.0 ==> 0 <= n <= count
  {
    var x := count as real * pct;
    ScaledWithin(count as real, pct);
    var n := Trunc(x);
    assert count >= 0 && pct <= 1.0 ==> n as real <= count as real;
    n
  }

  lemma ShareOfHours(hours: real, total: real, lines: nat)
    requires 0.0 < hours
    ensures hours <= total ==> 0.0 < hours / total <= 1.0
    ensures hours <= total ==> lines as real * (hours / total) <= lines as real
    ensures hours <= total ==> 0.0 < hours / total * 100.0 <= 100.0
  {
    if hours > total {
      return;
    }
    var q := hours / total;
    assert q * total == hours;
    assert q <= 1.0 by {
      assert (total - hours) / total >= 0.0;
    }
    assert lines as real * (1.0 - q) >= 0.0;
  }

  /** The entry of one shift type with `hours` of the `total` hours. */
  function ShiftEntry(t: ShiftType, hours: real, total: real, lines: nat, orders: nat, units: int): (e: ShiftPerformance)
    requires hours > 0.0
    ensures e.shiftType == t && e.totalHours == hours
    ensures total > 0.0 ==> e.percentageOfWork == hours / total * 100.0
    ensures total <= 0.0 ==> e.percentageOfWork == 0.0
    ensures hours <= total ==> 0.0 < e.percentageOfWork <= 100.0 && 0 <= e.totalLines <= lines
    ensures e.linesPerHour * hours == e.percentageOfWork / 100.0 * lines as real
    ensures FloorOf(lines as real * Share(hours, total), e.totalLines)
    ensures FloorOf(orders as real * Share(hours, total), e.totalOrders)
    ensures TowardZero(units as real * Share(hours, total), e.totalUnits)
  {
    ShareOfHours(hours, total, lines);
    var pct := Share(hours, total);
    Unscale(pct, lines);
    ShiftPerformance(t, hours, Apportion(lines, pct), Apportion(orders, pct), Apportion(units, pct),
      Rate(lines as real * pct, hours), Rate(orders as real * pct, hours), pct * 100.0)
  }

  /** A count spread over `hours`. */
  function Rate(count: real, hours: real): (r: real)
    requires hours > 0.0
    ensures r * hours == count
  {
    count / hours
  }

  lemma Unscale(pct: real, lines: nat)
    ensures pct * 100.0 / 100.0 * lines as real == lines as real * pct
  {
    assert pct * 100.0 / 100.0 == pct;
  }

  /** `_calculate_shift_performance`: with a schedule, one entry for BASE and
      one for OVERLAY, each present only when its hours over the range are
      positive, with the type's share of all hours. */
  function ShiftPerformanceOf(schedule: Option<Shifts.ShiftSchedule>, dateFrom: int, dateTo: int,
                              lines: nat, orders: nat, units: int): (r: seq<ShiftPerformance>)
    ensures schedule.None? ==> r == []
    ensures schedule.Some? ==>
      var base := Shifts.TotalHours(schedule.value, dateFrom, dateTo, Some(Base));
      var overlay := Shifts.TotalHours(schedule.value, dateFrom, dateTo, Some(Overlay));
      r == SplitByType(base, overlay, lines, orders, units) &&
      (forall i :: 0 <= i < |r| ==> 0.0 < r[i].percentageOfWork <= 100.0) &&
      (|r| == 1 ==> r[0].percentageOfWork == 100.0) &&
      (|r| == 2 ==> r[0].percentageOfWork + r[1].percentageOfWork == 100.0)
  {
    if schedule.None? then []
    else
      var s := schedule.value;
      var base := Shifts.TotalHours(s, dateFrom, dateTo, Some(Base));
      var overlay := Shifts.TotalHours(s, dateFrom, dateTo, Some(Overlay));
      HoursSign(s, dateFrom, dateTo);
      SplitByType(base, overlay, lines, orders, units)
  }

  /** The entries for `base` BASE hours and `overlay` OVERLAY hours: one per
      type with positive hours, BASE first, with shares of work adding up to
      100 %. */
  function SplitByType(base: real, overlay: real, lines: nat, orders: nat, units: int): (r: seq<ShiftPerformance>)
    ensures |r| == (if base > 0.0 then 1 else 0) + (if overlay > 0.0 then 1 else 0)
    ensures forall i :: 0 <= i < |r| ==> r[i].totalHours > 0.0
    ensures base > 0.0 ==> r[0].shiftType == Base && r[0].totalHours == base
    ensures overlay > 0.0 ==> r[|r| - 1].shiftType == Overlay && r[|r| - 1].totalHours == overlay
    ensures (base > 0.0 ==> overlay >= 0.0) && (overlay > 0.0 ==> base >= 0.0) ==>
      (forall i :: 0 <= i < |r| ==> 0.0 < r[i].percentageOfWork <= 100.0) &&
      (|r| == 1 ==> r[0].percentageOfWork == 100.0) &&
      (|r| == 2 ==> r[0].percentageOfWork + r[1].percentageOfWork == 100.0)
  {
    var total := base + overlay;
    if base > 0.0 && overlay > 0.0 then
      SharesSum(base, overlay);
      [ShiftEntry(Base, base, total, lines, orders, units), ShiftEntry(Overlay, overlay, total, lines, orders, units)]
    else if base > 0.0 then
      ShareWhole(base);
      [ShiftEntry(Base, base, total, lines, orders, units)]
    else if overlay > 0.0 then
      ShareWhole(overlay);
      [ShiftEntry(Overlay, overlay, total, lines, orders, units)]
    else []
  }

  /** The two type totals carry the sign of the hours per shift, so a positive
      one makes the other non-negative. */
  lemma HoursSign(s: Shifts.ShiftSchedule, dateFrom: int, dateTo: int)
    ensures Shifts.TotalHours(s, dateFrom, dateTo, Some(Base)) > 0.0 ==> Shifts.TotalHours(s, dateFrom, dateTo, Some(Overlay)) >= 0.0
    ensures Shifts.TotalHours(s, dateFrom, dateTo, Some(Overlay)) > 0.0 ==> Shifts.TotalHours(s, dateFrom, dateTo, Some(Base)) >= 0.0
  {
    var c := s.weekly.productiveHoursPerShift;
    var all := Shifts.ShiftsForRange(s, dateFrom, dateTo);
    ScaleSign(c, Seqs.Count(all, Shifts.SelectedBy(Some(Base))));
    ScaleSign(c, Seqs.Count(all, Shifts.SelectedBy(Some(Overlay))));
  }

  lemma {:induction false} ScaleSign(c: real, n: nat)
    ensures c >= 0.0 ==> Seqs.Scale(c, n) >= 0.0
    ensures Seqs.Scale(c, n) > 0.0 ==> c > 0.0
  {
    if n > 0 {
      ScaleSign(c, n - 1);
    }
  }

  lemma SharesSum(base: real, overlay: real)
    requires base > 0.0 && overlay > 0.0
    ensures base / (base + overlay) * 100.0 + overlay / (base + overlay) * 100.0 == 100.0
  {
    var t := base + overlay;
    assert base / t + overlay / t == t / t;
  }

  lemma ShareWhole(hours: real)
    requires hours > 0.0
    ensures hours / hours * 100.0 == 100.0
  {
  }

  /** Days in `[dateFrom, dateTo]` that fall on Monday to Friday. */
  function WorkingDays(dateFrom: int, dateTo: int): (n: nat)
    ensures n <= if dateTo >= dateFrom then dateTo - dateFrom + 1 else 0
    decreases dateTo - dateFrom
  {
    if dateFrom > dateTo then 0
    else (if Shifts.Weekday(dateFrom) < 5 then 1 else 0) + WorkingDays(dateFrom + 1, dateTo)
  }

  /** Any seven consecutive days hold exactly five working days. */
  lemma WorkingWeek(d: int)
    ensures WorkingDays(d, d + 6) == 5
  {
    var x := d + 3;
    assert WorkingDays(d + 7, d + 6) == 0;
    assert WorkingDays(d + 6, d + 6) == Working(x + 6);
    assert WorkingDays(d + 5, d + 6) == Working(x + 5) + Working(x + 6);
    assert WorkingDays(d + 4, d + 6) == Working(x + 4) + Working(x + 5) + Working(x + 6);
    assert WorkingDays(d + 3, d + 6) == Working(x + 3) + Working(x + 4) + Working(x + 5) + Working(x + 6);
    assert WorkingDays(d + 2, d + 6) == Working(x + 2) + Working(x + 3) + Working(x + 4) + Working(x + 5) + Working(x + 6);
    assert WorkingDays(d + 1, d + 6) == Working(x + 1) + Working(x + 2) + Working(x + 3) + Working(x + 4) + Working(x + 5) + Working(x + 6);
    FiveOfSeven(x);
  }

  /** 1 for a day whose number plus three, taken modulo 7, is Monday to Friday. */
  function Working(k: int): nat
  {
    if k % 7 < 5 then 1 else 0
  }

  lemma WorkingShift(x: int, k: int)
    ensures Working(x + k) == Working(x % 7 + k)
  {
    var q := x / 7;
    assert x == 7 * q + x % 7;
    assert (x + k) % 7 == (x % 7 + k) % 7;
  }

  lemma FiveOfSeven(x: int)
    ensures Working(x) + Working(x + 1) + Working(x + 2) + Working(x + 3) + Working(x + 4) + Working(x + 5) + Working(x + 6) == 5
  {
    var w := x % 7;
    WorkingShift(x, 0);
    WorkingShift(x, 1);
    WorkingShift(x, 2);
    WorkingShift(x, 3);
    WorkingShift(x, 4);
    WorkingShift(x, 5);
    WorkingShift(x, 6);
    FiveFrom(w);
  }

  lemma FiveFrom(w: int)
    requires 0 <= w < 7
    ensures Working(w) + Working(w + 1) + Working(w + 2) + Working(w + 3) + Working(w + 4) + Working(w + 5) + Working(w + 6) == 5
  {
  }

  /** A range split at any day has the working days of its two parts. */
  lemma {:induction false} WorkingDaysSplit(a: int, b: int, c: int)
    requires a <= b + 1 && b <= c
    ensures WorkingDays(a, c) == WorkingDays(a, b) + WorkingDays(b + 1, c)
    decreases b - a
  {
    if a <= b {
      WorkingDaysSplit(a + 1, b, c);
    }
  }

  /** `_calculate_total_productive_hours`: the schedule's hours over the range,
      or without a schedule two shifts of `productiveHoursPerShift` on every
      working day. */
  function TotalProductiveHours(schedule: Option<Shifts.ShiftSchedule>, dateFrom: int, dateTo: int,
                                productiveHoursPerShift: real): (h: real)
    ensures schedule.Some? ==> h == Shifts.TotalHours(schedule.value, dateFrom, dateTo, None)
    ensures schedule.None? ==> h == (WorkingDays(dateFrom, dateTo) * 2) as real * productiveHoursPerShift
    ensures schedule.None? && dateFrom > dateTo ==> h == 0.0
    ensures schedule.None? && productiveHoursPerShift >= 0.0 ==>
      h <= (2 * (if dateTo >= dateFrom then dateTo - dateFrom + 1 else 0)) as real * productiveHoursPerShift
  {
    if schedule.Some? then Shifts.TotalHours(schedule.value, dateFrom, dateTo, None)
    else
      ShiftsBound(dateFrom, dateTo, productiveHoursPerShift);
      (WorkingDays(dateFrom, dateTo) * 2) as real * productiveHoursPerShift
  }

  lemma ShiftsBound(dateFrom: int, dateTo: int, x: real)
    ensures x >= 0.0 ==>
      (WorkingDays(dateFrom, dateTo) * 2) as real * x <= (2 * (if dateTo >= dateFrom then dateTo - dateFrom + 1 else 0)) as real * x
    ensures dateFrom > dateTo ==> (WorkingDays(dateFrom, dateTo) * 2) as real * x == 0.0
  {
    var n := WorkingDays(dateFrom, dateTo);
    var days := if dateTo >= dateFrom then dateTo - dateFrom + 1 else 0;
    if x >= 0.0 {
      assert ((2 * days) as real - (n * 2) as real) * x >= 0.0;
    }
    if dateFrom > dateTo {
      assert n == 0;
    }
  }

  /** Without a schedule a full week yields ten shifts. */
  lemma DefaultWeekHours(d: int, productiveHoursPerShift: real)
    ensures TotalProductiveHours(None, d, d + 6, productiveHoursPerShift) == 10.0 * productiveHoursPerShift
  {
    WorkingWeek(d);
  }
}
