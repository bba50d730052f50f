/** Fitting SKUs onto carriers (src/analytics/capacity.py): the allowed
    orientations, the choice of the orientation with the largest minimum
    margin, the FIT / BORDERLINE / NOT_FIT classification, grid packing
    capped by weight, and the per-frame pass with its counters. */
module Capacity {
  import opened Wrappers
  import opened Types
  import Seqs
  import Reals

  /** The SKU's length, width and height in millimetres. */
  datatype Dims = Dims(length: real, width: real, height: real)

  function DimOf(d: Dims, a: Axis): real
  {
    match a
    case L => d.length
    case W => d.width
    case H => d.height
  }

  /** `ORIENTATIONS`: `itertools.permutations(["L", "W", "H"])`, in its order. */
  const Orientations: seq<Orientation> := [
    Orientation(L, W, H), Orientation(L, H, W), Orientation(W, L, H),
    Orientation(W, H, L), Orientation(H, L, W), Orientation(H, W, L)
  ]

  /** Each SKU dimension goes to exactly one carrier axis. */
  predicate IsPermutation(o: Orientation)
  {
    o.x != o.y && o.y != o.z && o.x != o.z
  }

  lemma OrientationsArePermutations(o: Orientation)
    ensures o in Orientations <==> IsPermutation(o)
  {
  }

  /** Whether a constraint admits an orientation: UPRIGHT_ONLY keeps the height
      on the Z axis, FLAT_ONLY keeps it off the Z axis. */
  predicate Admits(c: OrientationConstraint, o: Orientation)
  {
    match c
    case Any => true
    case UprightOnly => o.z == H
    case FlatOnly => o.z != H
  }

  /** `_get_allowed_orientations`. */
  function AllowedOrientations(c: OrientationConstraint): (r: seq<Orientation>)
    ensures forall o :: o in r <==> o in Orientations && Admits(c, o)
    ensures |r| == match c case Any => 6 case UprightOnly => 2 case FlatOnly => 4
    ensures Seqs.NoDup(r)
  {
    match c
    case Any => Orientations
    case UprightOnly => [Orientation(L, W, H), Orientation(W, L, H)]
    case FlatOnly => [Orientation(L, H, W), Orientation(W, H, L), Orientation(H, L, W), Orientation(H, W, L)]
  }

  /** The SKU fits the carrier in orientation `o`, touching walls allowed. */
  predicate FitsIn(c: CarrierConfig, d: Dims, o: Orientation)
  {
    DimOf(d, o.x) <= c.innerLength && DimOf(d, o.y) <= c.innerWidth && DimOf(d, o.z) <= c.innerHeight
  }

  /** The smallest of the three axis margins (inner size minus SKU size). */
  function MinMargin(c: CarrierConfig, d: Dims, o: Orientation): (m: real)
    ensures m <= c.innerLength - DimOf(d, o.x)
    ensures m <= c.innerWidth - DimOf(d, o.y)
    ensures m <= c.innerHeight - DimOf(d, o.z)
    ensures m == c.innerLength - DimOf(d, o.x) || m == c.innerWidth - DimOf(d, o.y)
         || m == c.innerHeight - DimOf(d, o.z)
    ensures m >= 0.0 <==> FitsIn(c, d, o)
  {
    var mx := c.innerLength - DimOf(d, o.x);
    var my := c.innerWidth - DimOf(d, o.y);
    var mz := c.innerHeight - DimOf(d, o.z);
    if mx <= my && mx <= mz then mx else if my <= mz then my else mz
  }

  /** `k` is the orientation the scan keeps: it fits, no allowed orientation
      has a larger minimum margin, and every earlier one has a smaller margin
      (the first of several equal best margins wins). */
  predicate IsBest(os: seq<Orientation>, c: CarrierConfig, d: Dims, k: nat)
  {
    k < |os| && MinMargin(c, d, os[k]) >= 0.0
    && (forall i :: 0 <= i < |os| ==> MinMargin(c, d, os[i]) <= MinMargin(c, d, os[k]))
    && (forall i :: 0 <= i < k ==> MinMargin(c, d, os[i]) < MinMargin(c, d, os[k]))
  }

  /** The scan of `_check_fit` over a list of margins: a non-negative margin
      replaces the best so far only when strictly larger. */
  function BestIndex(ms: seq<real>): (r: Option<nat>)
    ensures r.None? <==> forall i :: 0 <= i < |ms| ==> ms[i] < 0.0
    ensures r.Some? ==> r.value < |ms| && ms[r.value] >= 0.0
    ensures r.Some? ==> forall i :: 0 <= i < |ms| ==> ms[i] <= ms[r.value]
    ensures r.Some? ==> forall i :: 0 <= i < r.value ==> ms[i] < ms[r.value]
  {
    if |ms| == 0 then None
    else
      var prev := BestIndex(ms[..|ms| - 1]);
      var m := ms[|ms| - 1];
      assert forall i :: 0 <= i < |ms| - 1 ==> ms[..|ms| - 1][i] == ms[i];
      if m >= 0.0 && (prev.None? || m > ms[prev.value]) then Some(|ms| - 1) else prev
  }

  function Margins(c: CarrierConfig, d: Dims, os: seq<Orientation>): (ms: seq<real>)
    ensures |ms| == |os|
    ensures forall i :: 0 <= i < |os| ==> ms[i] == MinMargin(c, d, os[i])
  {
    seq(|os|, i requires 0 <= i < |os| => MinMargin(c, d, os[i]))
  }

  /** Index, in the allowed list, of the orientation `_check_fit` keeps. */
  function BestOrientationIndex(c: CarrierConfig, d: Dims, constraint: OrientationConstraint): (r: Option<nat>)
    ensures r.None? <==> forall o :: o in AllowedOrientations(constraint) ==> !FitsIn(c, d, o)
    ensures r.Some? ==> IsBest(AllowedOrientations(constraint), c, d, r.value)
  {
    var os := AllowedOrientations(constraint);
    var r := BestIndex(Margins(c, d, os));
    assert r.None? ==> forall o :: o in os ==> !FitsIn(c, d, o) by {
      if r.None? {
        forall o | o in os ensures !FitsIn(c, d, o) {
          var i :| 0 <= i < |os| && os[i] == o;
        }
      }
    }
    r
  }

  /** How many SKUs fit along one axis: `int(inner // sku)`, or 0 for a
      non-positive SKU size. */
  function AxisCount(inner: real, sku: real): (n: nat)
    requires inner > 0.0
    ensures sku > 0.0 ==> n as real * sku <= inner < (n + 1) as real * sku
    ensures sku <= 0.0 ==> n == 0
  {
    if sku > 0.0 then
      var q := inner / sku;
      var f := q.Floor;
      assert q > 0.0;
      assert f as real <= q < f as real + 1.0;
      assert q * sku == inner;
      Reals.MulMonotone(f as real, q, sku);
      Reals.MulMonotone(q, f as real + 1.0, sku);
      assert inner < (f as real + 1.0) * sku;
      var n: nat := f;
      assert (n + 1) as real == f as real + 1.0;
      n
    else 0
  }

  /** How many SKUs of weight `w` the weight limit allows: `int(max // w)`. */
  function WeightCount(maxWeight: real, w: real): (n: nat)
    requires maxWeight > 0.0 && w > 0.0
    ensures n as real * w <= maxWeight < (n + 1) as real * w
  {
    AxisCount(maxWeight, w)
  }

  /** `_calculate_units_per_carrier`: a grid of whole SKUs along the three
      axes, capped by the weight limit when the SKU weighs something. */
  function UnitsPerCarrier(sx: real, sy: real, sz: real, w: real, c: CarrierConfig): (u: nat)
    requires ValidCarrier(c)
    ensures u <= AxisCount(c.innerLength, sx) * AxisCount(c.innerWidth, sy) * AxisCount(c.innerHeight, sz)
    ensures w > 0.0 ==> u as real * w <= c.maxWeight
    ensures w > 0.0 ==> u == AxisCount(c.innerLength, sx) * AxisCount(c.innerWidth, sy) * AxisCount(c.innerHeight, sz)
                        || (u + 1) as real * w > c.maxWeight
    ensures w <= 0.0 ==> u == AxisCount(c.innerLength, sx) * AxisCount(c.innerWidth, sy) * AxisCount(c.innerHeight, sz)
  {
    var grid := AxisCount(c.innerLength, sx) * AxisCount(c.innerWidth, sy) * AxisCount(c.innerHeight, sz);
    if w > 0.0 then
      var byWeight := WeightCount(c.maxWeight, w);
      if grid <= byWeight then
        Reals.MulMonotone(grid as real, byWeight as real, w);
        grid
      else byWeight
    else grid
  }

  /** `_check_fit` for one SKU on one carrier. */
  function CheckFit(sku: string, d: Dims, weight: real, c: CarrierConfig,
                    constraint: OrientationConstraint, threshold: real): (r: CarrierFitResult)
    requires ValidCarrier(c)
    ensures r.sku == sku && r.carrierId == c.carrierId
    ensures r.fitStatus == NotFit ==> r.unitsPerCarrier == 0 && r.bestOrientation.None? && r.marginMm.None?
    ensures r.limitingFactor == Dimension
        <==> forall o :: o in AllowedOrientations(constraint) ==> !FitsIn(c, d, o)
    ensures r.limitingFactor == Weight
        <==> BestOrientationIndex(c, d, constraint).Some? && weight > c.maxWeight
    ensures r.fitStatus == NotFit <==> r.limitingFactor != NoLimit
    ensures r.fitStatus != NotFit ==>
      var k := BestOrientationIndex(c, d, constraint).value;
      var o := AllowedOrientations(constraint)[k];
      r.bestOrientation == Some(o)
      && (r.fitStatus == Borderline <==> MinMargin(c, d, o) < threshold)
      && r.marginMm == (if r.fitStatus == Borderline then Some(MinMargin(c, d, o)) else None)
      && r.unitsPerCarrier == UnitsPerCarrier(DimOf(d, o.x), DimOf(d, o.y), DimOf(d, o.z), weight, c)
  {
    var os := AllowedOrientations(constraint);
    var best := BestOrientationIndex(c, d, constraint);
    if best.None? then
      CarrierFitResult(sku, c.carrierId, NotFit, None, 0, Dimension, None)
    else
      var k := best.value;
      var o := os[k];
      var m := MinMargin(c, d, o);
      assert FitsIn(c, d, o);
      if weight > c.maxWeight then
        CarrierFitResult(sku, c.carrierId, NotFit, None, 0, Weight, None)
      else
        var status := if m < threshold then Borderline else Fit;
        var units := UnitsPerCarrier(DimOf(d, o.x), DimOf(d, o.y), DimOf(d, o.z), weight, c);
        CarrierFitResult(sku, c.carrierId, status, Some(o), units, NoLimit,
                         if status == Borderline then Some(m) else None)
  }

  /** The orientation choice does not depend on the threshold: a larger
      threshold keeps NOT_FIT and the orientation unchanged and can only turn
      FIT into BORDERLINE. */
  lemma ThresholdMonotone(sku: string, d: Dims, weight: real, c: CarrierConfig,
                          constraint: OrientationConstraint, t1: real, t2: real)
    requires ValidCarrier(c) && t1 <= t2
    ensures (CheckFit(sku, d, weight, c, constraint, t1).fitStatus == NotFit)
        <==> (CheckFit(sku, d, weight, c, constraint, t2).fitStatus == NotFit)
    ensures CheckFit(sku, d, weight, c, constraint, t1).bestOrientation
         == CheckFit(sku, d, weight, c, constraint, t2).bestOrientation
    ensures CheckFit(sku, d, weight, c, constraint, t1).fitStatus == Borderline
        ==> CheckFit(sku, d, weight, c, constraint, t2).fitStatus == Borderline
    ensures CheckFit(sku, d, weight, c, constraint, t2).fitStatus == Fit
        ==> CheckFit(sku, d, weight, c, constraint, t1).fitStatus == Fit
  {
  }

  /** 100 x 100 x 50 mm at 1 kg on a 600 x 400 x 100 mm, 50 kg tray: the grid
      is 6 x 4 x 2 = 48, below the weight cap of 50. */
  lemma UnitsExample()
    ensures CheckFit("SKU6", Dims(100.0, 100.0, 50.0), 1.0,
                     CarrierConfig("TRAY_S", "Tray Small", 600.0, 400.0, 100.0, 50.0, true),
                     Any, 2.0).unitsPerCarrier == 48
  {
    var c := CarrierConfig("TRAY_S", "Tray Small", 600.0, 400.0, 100.0, 50.0, true);
    var d := Dims(100.0, 100.0, 50.0);
    var ms := Margins(c, d, Orientations);
    assert ms[0] == 50.0;
    var b := BestIndex(ms);
    assert b.Some?;
    assert b.value == 0 by {
      assert ms[b.value] >= ms[0];
      assert ms[1] == 0.0 && ms[3] == 0.0 && ms[4] == 0.0 && ms[5] == 0.0;
    }
    assert AxisCount(600.0, 100.0) == 6;
    assert AxisCount(400.0, 100.0) == 4;
    assert AxisCount(100.0, 50.0) == 2;
    assert WeightCount(50.0, 1.0) == 50;
  }

  predicate IsActive(c: CarrierConfig) { c.isActive }

  /** `analyze_sku`: `_check_fit` against each active carrier, in carrier order. */
  function AnalyzeSku(sku: string, d: Dims, weight: real, constraint: OrientationConstraint,
                      carriers: seq<CarrierConfig>, threshold: real): (r: seq<CarrierFitResult>)
    requires AllValid(carriers)
    ensures |r| == Seqs.Count(carriers, IsActive)
    ensures forall i :: 0 <= i < |r| ==>
      ValidCarrier(Seqs.Filter(carriers, IsActive)[i])
      && r[i] == CheckFit(sku, d, weight, Seqs.Filter(carriers, IsActive)[i], constraint, threshold)
  {
    var active := Seqs.Filter(carriers, IsActive);
    Seqs.FilterKeeps(carriers, IsActive, ValidCarrier);
    seq(|active|, i requires 0 <= i < |active| => CheckFit(sku, d, weight, active[i], constraint, threshold))
  }

  // ------------------------------------------------------------ frame pass

  /** One masterdata row as `analyze_dataframe` reads it; a NULL cell, or a
      column the frame does not have, is `None`. */
  datatype CapacityRow = CapacityRow(
    sku: Option<string>,
    length: Option<real>,
    width: Option<real>,
    height: Option<real>,
    weight: Option<real>,
    constraint: Option<string>)

  /** `OrientationConstraint(value)` with its `ValueError`/`TypeError` caught:
      anything but a valid name falls back to ANY. */
  function ParseConstraint(s: Option<string>): (c: OrientationConstraint)
    ensures c == UprightOnly <==> s == Some("UPRIGHT_ONLY")
    ensures c == FlatOnly <==> s == Some("FLAT_ONLY")
  {
    if s == Some("UPRIGHT_ONLY") then UprightOnly
    else if s == Some("FLAT_ONLY") then FlatOnly
    else Any
  }

  /** `row.get(col, 0) or 0`. */
  function OrZero(v: Option<real>): real
  {
    v.GetOr(0.0)
  }

  /** One record of the result frame. */
  datatype ResultRow = ResultRow(
    sku: string,
    carrierId: string,
    fitStatus: FitResult,
    unitsPerCarrier: nat,
    limitingFactor: LimitingFactor,
    marginMm: Option<real>)

  datatype CapacityAnalysisResult = CapacityAnalysisResult(
    results: seq<ResultRow>,
    totalSku: nat,
    fitCount: nat,
    borderlineCount: nat,
    notFitCount: nat,
    fitPercentage: real,
    carriersAnalyzed: seq<string>)

  predicate HasId(id: string, c: CarrierConfig) { c.carrierId == id }

  /** The carriers `analyze_dataframe` uses: those with the given id when the
      id is a non-empty string, all of them (inactive ones included) otherwise. */
  function SelectCarriers(carriers: seq<CarrierConfig>, carrierId: Option<string>): (r: seq<CarrierConfig>)
    ensures carrierId.None? || carrierId == Some("") ==> r == carriers
    ensures carrierId.Some? && carrierId.value != "" ==>
      |r| == Seqs.Count(carriers, c => HasId(carrierId.value, c))
      && forall i :: 0 <= i < |r| ==> r[i].carrierId == carrierId.value
    ensures forall i :: 0 <= i < |r| ==> r[i] in carriers
  {
    if carrierId.Some? && carrierId.value != "" then
      var r := Seqs.Filter(carriers, c => HasId(carrierId.value, c));
      assert forall i :: 0 <= i < |r| ==> r[i] in r;
      r
    else carriers
  }

  /** The result record for one row on one carrier. */
  function ResultOf(row: CapacityRow, c: CarrierConfig, threshold: real): (r: ResultRow)
    requires ValidCarrier(c) && row.sku.Some?
    ensures r.sku == row.sku.value && r.carrierId == c.carrierId
  {
    var f := CheckFit(row.sku.value, Dims(OrZero(row.length), OrZero(row.width), OrZero(row.height)),
                      OrZero(row.weight), c, ParseConstraint(row.constraint), threshold);
    ResultRow(f.sku, f.carrierId, f.fitStatus, f.unitsPerCarrier, f.limitingFactor, f.marginMm)
  }

  function RowResults(row: CapacityRow, sel: seq<CarrierConfig>, threshold: real): (r: seq<ResultRow>)
    requires AllValid(sel) && row.sku.Some?
    ensures |r| == |sel|
    ensures forall j :: 0 <= j < |sel| ==> r[j] == ResultOf(row, sel[j], threshold)
  {
    seq(|sel|, j requires 0 <= j < |sel| => ResultOf(row, sel[j], threshold))
  }

  predicate SkusPresent(rows: seq<CapacityRow>)
  {
    forall i :: 0 <= i < |rows| ==> rows[i].sku.Some?
  }

  /** The nested loop over rows and selected carriers, row by row. A NULL sku
      fails the result record's validation as soon as a carrier is checked. */
  function AllResults(rows: seq<CapacityRow>, sel: seq<CarrierConfig>, threshold: real): (r: Result<seq<ResultRow>>)
    requires AllValid(sel)
    ensures r.Ok? <==> |sel| == 0 || SkusPresent(rows)
  {
    if |sel| == 0 then Ok([])
    else if SkusPresent(rows) then
      Ok(Seqs.Concat(seq(|rows|, i requires 0 <= i < |rows| => RowResults(rows[i], sel, threshold))))
    else Err("validation error: sku")
  }

  /** The results come row-major: result `i * |sel| + j` is row `i` on
      selected carrier `j`. */
  lemma AllResultsAt(rows: seq<CapacityRow>, sel: seq<CarrierConfig>, threshold: real, i: nat, j: nat)
    requires AllValid(sel)
    requires AllResults(rows, sel, threshold).Ok?
    requires i < |rows| && j < |sel|
    ensures rows[i].sku.Some?
    ensures |AllResults(rows, sel, threshold).value| == |rows| * |sel|
    ensures i * |sel| + j < |AllResults(rows, sel, threshold).value|
    ensures AllResults(rows, sel, threshold).value[i * |sel| + j] == ResultOf(rows[i], sel[j], threshold)
  {
    var bs := seq(|rows|, k requires 0 <= k < |rows| => RowResults(rows[k], sel, threshold));
    Seqs.ConcatAt(bs, |sel|, i, j);
    Seqs.OffsetIsProduct(i, |sel|);
    Seqs.OffsetIsProduct(|rows|, |sel|);
  }

  /** The number of results is the product of rows and selected carriers. */
  lemma AllResultsLength(rows: seq<CapacityRow>, sel: seq<CarrierConfig>, threshold: real)
    requires AllValid(sel)
    requires AllResults(rows, sel, threshold).Ok?
    ensures |AllResults(rows, sel, threshold).value| == |rows| * |sel|
  {
    if |sel| > 0 && |rows| > 0 {
      AllResultsAt(rows, sel, threshold, 0, 0);
    }
  }

  predicate IsFit(r: ResultRow) { r.fitStatus == Fit }
  predicate IsBorderline(r: ResultRow) { r.fitStatus == Borderline }
  predicate IsNotFit(r: ResultRow) { r.fitStatus == NotFit }

  /** Every result has exactly one of the three statuses. */
  lemma {:induction false} StatusCountsPartition(s: seq<ResultRow>)
    ensures Seqs.Count(s, IsFit) + Seqs.Count(s, IsBorderline) + Seqs.Count(s, IsNotFit) == |s|
  {
    if |s| > 0 {
      StatusCountsPartition(s[1..]);
    }
  }

  function SkuColumn(rows: seq<CapacityRow>): (r: seq<Option<string>>)
    ensures |r| == |rows|
    ensures forall i :: 0 <= i < |rows| ==> r[i] == rows[i].sku
  {
    seq(|rows|, i requires 0 <= i < |rows| => rows[i].sku)
  }

  function CarrierIds(cs: seq<CarrierConfig>): (r: seq<string>)
    ensures |r| == |cs|
    ensures forall i :: 0 <= i < |cs| ==> r[i] == cs[i].carrierId
  {
    seq(|cs|, i requires 0 <= i < |cs| => cs[i].carrierId)
  }

  /** `fit_percentage`: the FIT-or-BORDERLINE share of all results, in percent. */
  function FitPercentage(fit: nat, border: nat, notFit: nat): (p: real)
    ensures 0.0 <= p <= 100.0
    ensures fit + border + notFit == 0 ==> p == 0.0
    ensures p == 100.0 <==> fit + border > 0 && notFit == 0
    ensures p == 0.0 <==> fit + border == 0
  {
    var total := fit + border + notFit;
    if total > 0 then
      var a := (fit + border) as real;
      var t := total as real;
      var q := a / t;
      Reals.ShareBounds(fit + border, total);
      q * 100.0
    else 0.0
  }

  /** `analyze_dataframe`: every row against every selected carrier, the three
      status counters, and the share of FIT or BORDERLINE results.
      `hasSku` says whether the frame has a `sku` column: without one,
      `row["sku"]` and `df["sku"]` raise. */
  function AnalyzeDataframe(rows: seq<CapacityRow>, hasSku: bool, carriers: seq<CarrierConfig>,
                            carrierId: Option<string>, threshold: real): (r: Result<CapacityAnalysisResult>)
    requires AllValid(carriers)
    ensures !hasSku ==> r.Err?
    ensures hasSku ==> (r.Ok? <==> |SelectCarriers(carriers, carrierId)| == 0 || SkusPresent(rows))
    ensures r.Ok? ==> |r.value.results| == |rows| * |SelectCarriers(carriers, carrierId)|
    ensures r.Ok? ==> r.value.results == AllResults(rows, SelectCarriers(carriers, carrierId), threshold).value
    ensures r.Ok? ==> r.value.fitCount + r.value.borderlineCount + r.value.notFitCount == |r.value.results|
    ensures r.Ok? ==> 0.0 <= r.value.fitPercentage <= 100.0
    ensures r.Ok? ==> (|r.value.results| == 0 ==> r.value.fitPercentage == 0.0)
    ensures r.Ok? ==> (r.value.fitPercentage == 100.0 <==> |r.value.results| > 0 && r.value.notFitCount == 0)
    ensures r.Ok? ==> r.value.totalSku == |Seqs.Distinct(SkuColumn(rows))|
    ensures r.Ok? ==> r.value.carriersAnalyzed == CarrierIds(SelectCarriers(carriers, carrierId))
  {
    var sel := SelectCarriers(carriers, carrierId);
    assert AllValid(sel);
    var all := AllResults(rows, sel, threshold);
    if !hasSku then Err("column not found: sku")
    else if all.Err? then Err(all.error)
    else
      var res := all.value;
      var fit := Seqs.Count(res, IsFit);
      var border := Seqs.Count(res, IsBorderline);
      var notFit := Seqs.Count(res, IsNotFit);
      StatusCountsPartition(res);
      AllResultsLength(rows, sel, threshold);
      var pct := FitPercentage(fit, border, notFit);
      Ok(CapacityAnalysisResult(res, |Seqs.Distinct(SkuColumn(rows))|, fit, border, notFit, pct, CarrierIds(sel)))
  }
}
