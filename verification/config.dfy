/** Analysis constants and the validated `Config` record (src/core/config.py). */
module Config {
  import opened Wrappers

  const TreatZeroAsMissingDimensions: bool := true
  const TreatZeroAsMissingWeight: bool := true
  const TreatZeroAsMissingQuantities: bool := true
  const TreatNegativeAsMissing: bool := true

  /** Minimum margin, in millimetres, below which a fit is BORDERLINE. */
  const BorderlineThresholdMm: real := 2.0

  const DefaultUtilizationVlm: real := 0.75
  const DefaultUtilizationMib: real := 0.68
  const DefaultProductiveHoursPerShift: real := 7.0
  const PeakPercentiles: seq<nat> := [90, 95, 99]

  /** An inclusive `[min, max]` range of plausible values. */
  datatype Bounds = Bounds(min: real, max: real)

  /** Static outlier ranges per masterdata column. */
  const OutlierThresholds: map<string, Bounds> := map[
    "length_mm" := Bounds(0.001, 3650.0),
    "width_mm" := Bounds(0.001, 864.0),
    "height_mm" := Bounds(0.001, 500.0),
    "weight_kg" := Bounds(0.001, 500.0),
    "stock_qty" := Bounds(0.0, 1000000.0)
  ]

  datatype Config = Config(
    treatZeroAsMissingDimensions: bool,
    treatZeroAsMissingWeight: bool,
    treatZeroAsMissingQuantities: bool,
    treatNegativeAsMissing: bool,
    imputationEnabled: bool,
    imputationMethod: string,
    borderlineThresholdMm: real,
    utilizationVlm: real,
    utilizationMib: real,
    productiveHoursPerShift: real,
    peakPercentiles: seq<nat>)

  predicate ValidConfig(c: Config)
  {
    0.0 < c.utilizationVlm <= 1.0 && 0.0 < c.utilizationMib <= 1.0
    && 0.0 < c.productiveHoursPerShift <= 24.0 && c.borderlineThresholdMm >= 0.0
  }

  /** `Config.__post_init__`: the checks run in declaration order and the
      first failing one raises, naming its field. */
  function Validate(c: Config): (r: Result<Config>)
    ensures r.Ok? <==> ValidConfig(c)
    ensures r.Ok? ==> r.value == c
    ensures !(0.0 < c.utilizationVlm <= 1.0) ==> r == Err("utilization_vlm")
    ensures 0.0 < c.utilizationVlm <= 1.0 && !(0.0 < c.utilizationMib <= 1.0) ==> r == Err("utilization_mib")
    ensures (0.0 < c.utilizationVlm <= 1.0 && 0.0 < c.utilizationMib <= 1.0 && !(0.0 < c.productiveHoursPerShift <= 24.0))
      ==> r == Err("productive_hours_per_shift")
    ensures (0.0 < c.utilizationVlm <= 1.0 && 0.0 < c.utilizationMib <= 1.0 && 0.0 < c.productiveHoursPerShift <= 24.0 &&
      c.borderlineThresholdMm < 0.0) ==> r == Err("borderline_threshold_mm")
    ensures r.Err? ==> r.error in {"utilization_vlm", "utilization_mib", "productive_hours_per_shift", "borderline_threshold_mm"}
  {
    if !(0.0 < c.utilizationVlm <= 1.0) then Err("utilization_vlm")
    else if !(0.0 < c.utilizationMib <= 1.0) then Err("utilization_mib")
    else if !(0.0 < c.productiveHoursPerShift <= 24.0) then Err("productive_hours_per_shift")
    else if c.borderlineThresholdMm < 0.0 then Err("borderline_threshold_mm")
    else Ok(c)
  }

  /** `Config()` with every default; it passes validation. */
  function DefaultConfig(): (c: Config)
    ensures Validate(c) == Ok(c)
    ensures c.borderlineThresholdMm == 2.0 && c.productiveHoursPerShift == 7.0
  {
    Config(TreatZeroAsMissingDimensions, TreatZeroAsMissingWeight, TreatZeroAsMissingQuantities,
           TreatNegativeAsMissing, true, "median", BorderlineThresholdMm,
           DefaultUtilizationVlm, DefaultUtilizationMib, DefaultProductiveHoursPerShift, PeakPercentiles)
  }

  /** A zero threshold is accepted; only a negative one is refused. */
  lemma ZeroThresholdAccepted(c: Config)
    requires ValidConfig(c)
    ensures Validate(c.(borderlineThresholdMm := 0.0)).Ok?
    ensures Validate(c.(borderlineThresholdMm := -0.5)) == Err("borderline_threshold_mm")
  {
  }
}
