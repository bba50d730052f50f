/** The shared record and enumeration types of the tool (src/core/types.py):
    carriers, masterdata rows, fit results, shifts, weekly schedules and the
    data-quality scorecard. Pydantic field validation is modelled by the
    `Make*` constructors, which fail exactly when a field bound is violated. */
module Types {
  import opened Wrappers
  import Seqs

  datatype DataQualityFlag = Raw | Estimated
  datatype FitResult = Fit | Borderline | NotFit
  datatype OrientationConstraint = Any | UprightOnly | FlatOnly
  datatype ShiftType = Base | Overlay
  /** `LimitingFactor.NONE` is `NoLimit` here. */
  datatype LimitingFactor = Dimension | Weight | NoLimit

  /** The SKU dimension placed on a carrier axis. */
  datatype Axis = L | W | H
  /** An orientation maps the SKU's (L, W, H) onto the carrier's (X, Y, Z). */
  datatype Orientation = Orientation(x: Axis, y: Axis, z: Axis)

  // ---------------------------------------------------------------- carriers

  datatype CarrierConfig = CarrierConfig(
    carrierId: string,
    name: string,
    innerLength: real,
    innerWidth: real,
    innerHeight: real,
    maxWeight: real,
    isActive: bool)

  /** The field bounds `gt=0` on the inner dimensions and on the weight limit. */
  predicate ValidCarrier(c: CarrierConfig)
  {
    c.innerLength > 0.0 && c.innerWidth > 0.0 && c.innerHeight > 0.0 && c.maxWeight > 0.0
  }

  predicate AllValid(cs: seq<CarrierConfig>)
  {
    forall i :: 0 <= i < |cs| ==> ValidCarrier(cs[i])
  }

  /** Constructing a `CarrierConfig`: validation fails on a non-positive bound. */
  function MakeCarrier(id: string, name: string, l: real, w: real, h: real, maxW: real, active: bool)
    : (r: Result<CarrierConfig>)
    ensures r.Ok? <==> l > 0.0 && w > 0.0 && h > 0.0 && maxW > 0.0
    ensures r.Ok? ==> ValidCarrier(r.value) && r.value.carrierId == id && r.value.isActive == active
  {
    if l > 0.0 && w > 0.0 && h > 0.0 && maxW > 0.0 then
      Ok(CarrierConfig(id, name, l, w, h, maxW, active))
    else
      Err("validation error")
  }

  /** `inner_volume_m3`: the inner box in cubic metres. */
  function InnerVolumeM3(c: CarrierConfig): (v: real)
    requires ValidCarrier(c)
    ensures v > 0.0
  {
    var lw := c.innerLength * c.innerWidth;
    assert lw > 0.0;
    lw * c.innerHeight / 1000000000.0
  }

  datatype CarrierFitResult = CarrierFitResult(
    sku: string,
    carrierId: string,
    fitStatus: FitResult,
    bestOrientation: Option<Orientation>,
    unitsPerCarrier: nat,
    limitingFactor: LimitingFactor,
    marginMm: Option<real>)

  // -------------------------------------------------------------- masterdata

  datatype MasterdataRow = MasterdataRow(
    sku: string,
    lengthMm: real,
    widthMm: real,
    heightMm: real,
    weightKg: real,
    stockQty: int,
    lengthFlag: DataQualityFlag,
    widthFlag: DataQualityFlag,
    heightFlag: DataQualityFlag,
    weightFlag: DataQualityFlag,
    stockFlag: DataQualityFlag,
    orientationConstraint: OrientationConstraint)

  /** Constructing a `MasterdataRow` with the defaults of the unset fields
      (stock 0, every flag RAW, orientation ANY); validation fails on a
      negative dimension, weight or stock. */
  function MakeMasterdataRow(sku: string, l: real, w: real, h: real, kg: real, stock: Option<int>)
    : (r: Result<MasterdataRow>)
    ensures r.Ok? <==> l >= 0.0 && w >= 0.0 && h >= 0.0 && kg >= 0.0 && stock.GetOr(0) >= 0
    ensures r.Ok? ==> r.value.stockQty >= 0 && (stock.None? ==> r.value.stockQty == 0)
    ensures r.Ok? ==> !HasEstimatedDimensions(r.value) && !HasEstimatedWeight(r.value)
    ensures r.Ok? ==> r.value.orientationConstraint == Any
  {
    if l >= 0.0 && w >= 0.0 && h >= 0.0 && kg >= 0.0 && stock.GetOr(0) >= 0 then
      Ok(MasterdataRow(sku, l, w, h, kg, stock.GetOr(0), Raw, Raw, Raw, Raw, Raw, Any))
    else
      Err("validation error")
  }

  /** `volume_m3` of a row: non-negative for a validated row. */
  function RowVolumeM3(r: MasterdataRow): (v: real)
    requires r.lengthMm >= 0.0 && r.widthMm >= 0.0 && r.heightMm >= 0.0
    ensures v >= 0.0
    ensures v == 0.0 <==> r.lengthMm == 0.0 || r.widthMm == 0.0 || r.heightMm == 0.0
  {
    var lw := r.lengthMm * r.widthMm;
    assert lw >= 0.0 && (lw == 0.0 <==> r.lengthMm == 0.0 || r.widthMm == 0.0);
    lw * r.heightMm / 1000000000.0
  }

  /** `has_estimated_dimensions`: some of the three dimension flags is ESTIMATED. */
  predicate HasEstimatedDimensions(r: MasterdataRow)
  {
    r.lengthFlag == Estimated || r.widthFlag == Estimated || r.heightFlag == Estimated
  }

  predicate HasEstimatedWeight(r: MasterdataRow)
  {
    r.weightFlag == Estimated
  }

  // ------------------------------------------------------------------ shifts

  /** A clock time as minutes since midnight (`hour * 60 + minute`). */
  type MinuteOfDay = m: int | 0 <= m < 1440

  datatype ShiftConfig = ShiftConfig(name: string, start: MinuteOfDay, end: MinuteOfDay, shiftType: ShiftType)

  /** Length of a shift in minutes; an end at or before the start runs past
      midnight, so equal start and end is a full day. */
  function DurationMinutes(s: ShiftConfig): (m: int)
    ensures 0 < m <= 1440
    ensures (s.start + m) % 1440 == s.end
    ensures s.end > s.start ==> m == s.end - s.start
  {
    if s.end <= s.start then s.end + 1440 - s.start else s.end - s.start
  }

  /** `ShiftConfig.duration_hours`. */
  function DurationHours(s: ShiftConfig): (h: real)
    ensures 0.0 < h <= 24.0
    ensures h * 60.0 == DurationMinutes(s) as real
  {
    DurationMinutes(s) as real / 60.0
  }

  /** The duration is the unique length in (0, 24h] that brings the start
      clock round to the end clock. */
  lemma DurationUnique(s: ShiftConfig, m: int)
    requires 0 < m <= 1440 && (s.start + m) % 1440 == s.end
    ensures m == DurationMinutes(s)
  {
    var d := DurationMinutes(s);
    assert (s.start + d) % 1440 == (s.start + m) % 1440;
    assert -1440 < m - d < 1440;
    assert (m - d) % 1440 == 0 by {
      assert (s.start + m) - (s.start + d) == m - d;
    }
  }

  datatype WeeklySchedule = WeeklySchedule(
    timezone: string,
    productiveHoursPerShift: real,
    mon: seq<ShiftConfig>,
    tue: seq<ShiftConfig>,
    wed: seq<ShiftConfig>,
    thu: seq<ShiftConfig>,
    fri: seq<ShiftConfig>,
    sat: seq<ShiftConfig>,
    sun: seq<ShiftConfig>)

  /** The field bound `gt=0, le=24` on the productive hours. */
  predicate ValidSchedule(w: WeeklySchedule)
  {
    0.0 < w.productiveHoursPerShift <= 24.0
  }

  /** The schedule's days, Monday first. */
  function Days(w: WeeklySchedule): (d: seq<seq<ShiftConfig>>)
    ensures |d| == 7
  {
    [w.mon, w.tue, w.wed, w.thu, w.fri, w.sat, w.sun]
  }

  /** `get_shifts_for_day`: Python list indexing, so -7..-1 count from Sunday
      backwards and anything else is an `IndexError`. */
  function GetShiftsForDay(w: WeeklySchedule, weekday: int): (r: Result<seq<ShiftConfig>>)
    ensures r.Ok? <==> -7 <= weekday < 7
    ensures weekday == 0 ==> r == Ok(w.mon)
    ensures weekday == 1 ==> r == Ok(w.tue)
    ensures weekday == 2 ==> r == Ok(w.wed)
    ensures weekday == 3 ==> r == Ok(w.thu)
    ensures weekday == 4 ==> r == Ok(w.fri)
    ensures weekday == 5 ==> r == Ok(w.sat)
    ensures weekday == 6 ==> r == Ok(w.sun)
    ensures r.Ok? ==> r.value == Days(w)[(weekday + 7) % 7]
  {
    if 0 <= weekday < 7 then Ok(Days(w)[weekday])
    else if -7 <= weekday < 0 then Ok(Days(w)[weekday + 7])
    else Err("list index out of range")
  }

  function BaseHours(s: ShiftConfig): real
  {
    if s.shiftType == Base then DurationHours(s) else 0.0
  }

  /** Clock hours of the BASE shifts of one day. */
  function DayBaseHours(shifts: seq<ShiftConfig>): (h: real)
    ensures h >= 0.0
    ensures h <= 24.0 * Seqs.Count(shifts, (s: ShiftConfig) => s.shiftType == Base) as real
    ensures h > 0.0 <==> exists i :: 0 <= i < |shifts| && shifts[i].shiftType == Base
  {
    if |shifts| == 0 then 0.0 else BaseHours(shifts[0]) + DayBaseHours(shifts[1..])
  }

  /** `total_base_hours_per_week`: clock hours of every BASE shift of the week;
      OVERLAY shifts contribute nothing. */
  function TotalBaseHoursPerWeek(w: WeeklySchedule): (h: real)
    ensures h >= 0.0
    ensures h > 0.0 <==> exists d :: 0 <= d < 7 && exists i :: 0 <= i < |Days(w)[d]| && Days(w)[d][i].shiftType == Base
  {
    var ds := Days(w);
    DayBaseHours(ds[0]) + DayBaseHours(ds[1]) + DayBaseHours(ds[2]) + DayBaseHours(ds[3])
      + DayBaseHours(ds[4]) + DayBaseHours(ds[5]) + DayBaseHours(ds[6])
  }

  // ------------------------------------------------------------ data quality

  datatype DQScorecard = DQScorecard(
    totalRecords: nat,
    dimensionsCoveragePct: real,
    weightCoveragePct: real,
    stockCoveragePct: real,
    missingCriticalCount: nat,
    suspectOutliersCount: nat,
    highRiskBorderlineCount: nat,
    duplicatesCount: nat,
    conflictsCount: nat,
    collisionsCount: nat,
    imputedDimensionsCount: nat,
    imputedWeightCount: nat)

  /** Weighted coverage: dimensions 40 %, weight 30 %, stock 30 %. */
  function WeightedCoverage(s: DQScorecard): real
  {
    s.dimensionsCoveragePct * 0.4 + s.weightCoveragePct * 0.3 + s.stockCoveragePct * 0.3
  }

  /** The problem penalty before the cap at 50. */
  function RawPenalty(s: DQScorecard): (p: real)
    ensures p >= 0.0
  {
    (s.missingCriticalCount * 2) as real + s.suspectOutliersCount as real
      + s.highRiskBorderlineCount as real * 0.5 + s.duplicatesCount as real
      + (s.conflictsCount * 2) as real + (s.collisionsCount * 3) as real
  }

  /** The problem penalty, capped at 50. */
  function Penalty(s: DQScorecard): (p: real)
    ensures 0.0 <= p <= 50.0 && p <= RawPenalty(s)
    ensures RawPenalty(s) <= 50.0 ==> p == RawPenalty(s)
    ensures RawPenalty(s) >= 50.0 ==> p == 50.0
  {
    if RawPenalty(s) < 50.0 then RawPenalty(s) else 50.0
  }

  /** `DQScorecard.overall_score`. */
  function OverallScore(s: DQScorecard): (r: real)
    ensures r >= 0.0
    ensures r >= WeightedCoverage(s) - 50.0
    ensures r <= WeightedCoverage(s) || r == 0.0
    ensures RawPenalty(s) == 0.0 && WeightedCoverage(s) >= 0.0 ==> r == WeightedCoverage(s)
    ensures r >= WeightedCoverage(s) - Penalty(s)
    ensures r == 0.0 || r == WeightedCoverage(s) - Penalty(s)
  {
    var score := WeightedCoverage(s) - Penalty(s);
    if score > 0.0 then score else 0.0
  }

  /** Every problem count pulls the score down (or leaves it): a scorecard with
      no more problems of any kind scores at least as high. */
  lemma OverallScoreMonotone(a: DQScorecard, b: DQScorecard)
    requires WeightedCoverage(a) == WeightedCoverage(b)
    requires a.missingCriticalCount <= b.missingCriticalCount
    requires a.suspectOutliersCount <= b.suspectOutliersCount
    requires a.highRiskBorderlineCount <= b.highRiskBorderlineCount
    requires a.duplicatesCount <= b.duplicatesCount
    requires a.conflictsCount <= b.conflictsCount
    requires a.collisionsCount <= b.collisionsCount
    ensures OverallScore(a) >= OverallScore(b)
  {
    assert RawPenalty(a) <= RawPenalty(b);
  }
}
