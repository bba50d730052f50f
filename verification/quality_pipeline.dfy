/** The data-quality pipeline (src/quality/pipeline.py): validation, metrics
    before imputation, optional imputation, metrics after, DQ lists, and the
    overall quality score. */
module QualityPipeline {
  import opened Wrappers
  import opened Frame
  import Config
  import Seqs
  import Validators
  import DqMetrics
  import DqLists
  import Impute

  datatype Pipeline = Pipeline(
    enableImputation: bool,
    how: Impute.Method,
    zeroAsMissing: bool,
    negativeAsMissing: bool)

  /** `QualityPipeline()` with its defaults. */
  const DefaultPipeline := Pipeline(true, Impute.Median, true, true)

  datatype PipelineResult = PipelineResult(
    frame: MdFrame,
    validation: Validators.ValidationResult,
    metricsBefore: DqMetrics.DataQualityMetrics,
    metricsAfter: DqMetrics.DataQualityMetrics,
    lists: DqLists.DqLists,
    imputation: Option<Impute.ImputationResult>,
    totalRecords: nat,
    validRecords: int,
    imputedRecords: nat)

  // ---------------------------------------------------------------------
  // Quality score
  // ---------------------------------------------------------------------

  /** The issue penalty: half a point per issue, at most 30. */
  function Penalty(issues: nat): (p: real)
    ensures 0.0 <= p <= 30.0
    ensures issues <= 60 ==> p == issues as real * 0.5
    ensures issues >= 60 ==> p == 30.0
  {
    if 30.0 <= issues as real * 0.5 then 30.0 else issues as real * 0.5
  }

  /** `quality_score` from the three coverages (each a percentage) and the
      number of DQ issues. */
  function Score(dims: real, weight: real, stock: real, issues: nat): (s: real)
    requires 0.0 <= dims <= 100.0 && 0.0 <= weight <= 100.0 && 0.0 <= stock <= 100.0
    ensures 0.0 <= s <= 100.0
    ensures s <= 0.4 * dims + 0.3 * weight + 0.3 * stock
    ensures s >= 0.4 * dims + 0.3 * weight + 0.3 * stock - 30.0
    ensures issues == 0 ==> s == 0.4 * dims + 0.3 * weight + 0.3 * stock
    ensures s >= 0.4 * dims + 0.3 * weight + 0.3 * stock - Penalty(issues)
    ensures s == 0.0 || s == 0.4 * dims + 0.3 * weight + 0.3 * stock - Penalty(issues)
  {
    var coverage := dims * 0.4 + weight * 0.3 + stock * 0.3;
    var d := coverage - Penalty(issues);
    if d < 0.0 then 0.0 else d
  }

  /** More issues never raise the score, and better coverage never lowers it. */
  lemma ScoreMonotone(dims: real, weight: real, stock: real, dims': real, weight': real, stock': real, issues: nat, issues': nat)
    requires 0.0 <= dims <= dims' <= 100.0 && 0.0 <= weight <= weight' <= 100.0 && 0.0 <= stock <= stock' <= 100.0
    requires issues' <= issues
    ensures Score(dims, weight, stock, issues) <= Score(dims', weight', stock', issues')
  {
    assert Penalty(issues') <= Penalty(issues);
  }

  function QualityScore(r: PipelineResult): (s: real)
    requires 0.0 <= r.metricsAfter.dimensionsCoveragePct <= 100.0
    requires 0.0 <= r.metricsAfter.weightCoveragePct <= 100.0
    requires 0.0 <= r.metricsAfter.stockCoveragePct <= 100.0
    ensures 0.0 <= s <= 100.0
    ensures DqLists.TotalIssues(r.lists) == 0 ==>
      s == 0.4 * r.metricsAfter.dimensionsCoveragePct + 0.3 * r.metricsAfter.weightCoveragePct
           + 0.3 * r.metricsAfter.stockCoveragePct
    ensures var coverage := 0.4 * r.metricsAfter.dimensionsCoveragePct + 0.3 * r.metricsAfter.weightCoveragePct
                            + 0.3 * r.metricsAfter.stockCoveragePct;
      s >= coverage - Penalty(DqLists.TotalIssues(r.lists)) &&
      (s == 0.0 || s == coverage - Penalty(DqLists.TotalIssues(r.lists)))
  {
    Score(r.metricsAfter.dimensionsCoveragePct, r.metricsAfter.weightCoveragePct,
          r.metricsAfter.stockCoveragePct, DqLists.TotalIssues(r.lists))
  }

  // ---------------------------------------------------------------------
  // The stages
  // ---------------------------------------------------------------------

  /** The validator the pipeline builds: zero counts as missing for
      dimensions and weight exactly when the pipeline says so, outlier
      checks on, default ranges, no carriers. */
  function ValidatorOf(p: Pipeline): (v: Validators.Validator)
    ensures v.zeroAsMissingDimensions == p.zeroAsMissing && v.zeroAsMissingWeight == p.zeroAsMissing
    ensures v.negativeAsMissing == p.negativeAsMissing && v.outlierValidation && v.carriers == []
    ensures v.zeroAsMissingQuantities == Config.TreatZeroAsMissingQuantities
  {
    Validators.NewValidator(p.zeroAsMissing, p.zeroAsMissing, Config.TreatZeroAsMissingQuantities,
      p.negativeAsMissing, true, None, None)
  }

  function CalculatorOf(p: Pipeline): DqMetrics.Calculator
  {
    DqMetrics.Calculator(p.zeroAsMissing, p.negativeAsMissing)
  }

  function ImputerOf(p: Pipeline): Impute.Imputer
  {
    Impute.Imputer(p.how, p.zeroAsMissing)
  }

  /** `run`: fails when validation or the DQ lists fail (a frame without
      its SKU column); otherwise the metrics are taken before and after
      the optional imputation and the lists are built from the imputed
      frame. */
  function Run(p: Pipeline, frame: MdFrame, limits: Option<seq<(string, real)>>): (r: Result<PipelineResult>)
    ensures Validators.Validate(ValidatorOf(p), frame).Err? ==> r.Err?
    ensures r.Ok? ==>
      var res := r.value;
      var validated := Validators.MarkAsMissing(ValidatorOf(p), frame);
      Validators.Validate(ValidatorOf(p), frame) == Ok(res.validation) &&
      res.totalRecords == |frame.rows| && res.validRecords == res.validation.validRecords &&
      res.metricsBefore == DqMetrics.Calculate(CalculatorOf(p), validated) &&
      res.metricsAfter == DqMetrics.Calculate(CalculatorOf(p), res.frame) &&
      DqLists.BuildDqLists(res.frame, limits) == Ok(res.lists) &&
      res.frame.columns == frame.columns && |res.frame.rows| == |frame.rows| &&
      (res.imputation.Some? <==> p.enableImputation) &&
      (res.imputation.None? ==> res.frame == validated && res.imputedRecords == 0 && res.metricsAfter == res.metricsBefore) &&
      (res.imputation.Some? ==>
        res.imputation.value == Impute.Impute(ImputerOf(p), validated, None) &&
        res.frame == res.imputation.value.frame && res.imputedRecords == res.imputation.value.totalImputed)
    ensures Validators.Validate(ValidatorOf(p), frame).Ok? ==>
      var validated := Validators.MarkAsMissing(ValidatorOf(p), frame);
      var out := if p.enableImputation then Impute.Impute(ImputerOf(p), validated, None).frame else validated;
      (r.Err? <==> DqLists.BuildDqLists(out, limits).Err?)
  {
    match Validators.Validate(ValidatorOf(p), frame)
    case Err(e) => Err(e)
    case Ok(validation) =>
      assert validation.validated.columns == frame.columns && |validation.validated.rows| == |frame.rows|;
      Finish(p, validation, |frame.rows|, limits)
  }

  /** The stages after a successful validation. */
  function Finish(p: Pipeline, validation: Validators.ValidationResult, total: nat, limits: Option<seq<(string, real)>>): (r: Result<PipelineResult>)
    ensures r.Ok? ==>
      var res := r.value;
      var validated := validation.validated;
      res.validation == validation &&
      res.totalRecords == total && res.validRecords == validation.validRecords &&
      res.metricsBefore == DqMetrics.Calculate(CalculatorOf(p), validated) &&
      res.metricsAfter == DqMetrics.Calculate(CalculatorOf(p), res.frame) &&
      DqLists.BuildDqLists(res.frame, limits) == Ok(res.lists) &&
      res.frame.columns == validated.columns && |res.frame.rows| == |validated.rows| &&
      (res.imputation.Some? <==> p.enableImputation) &&
      (res.imputation.None? ==> res.frame == validated && res.imputedRecords == 0 && res.metricsAfter == res.metricsBefore) &&
      (res.imputation.Some? ==>
        res.imputation.value == Impute.Impute(ImputerOf(p), validated, None) &&
        res.frame == res.imputation.value.frame && res.imputedRecords == res.imputation.value.totalImputed)
    ensures
      var out := if p.enableImputation then Impute.Impute(ImputerOf(p), validation.validated, None).frame else validation.validated;
      (r.Err? <==> DqLists.BuildDqLists(out, limits).Err?)
  {
    var validated := validation.validated;
    var before := DqMetrics.Calculate(CalculatorOf(p), validated);
    var imputation := if p.enableImputation then Some(Impute.Impute(ImputerOf(p), validated, None)) else None;
    var out := if imputation.Some? then imputation.value.frame else validated;
    var after := DqMetrics.Calculate(CalculatorOf(p), out);
    match DqLists.BuildDqLists(out, limits)
    case Err(e) => Err(e)
    case Ok(lists) =>
      Ok(PipelineResult(out, validation, before, after, lists, imputation, total,
        validation.validRecords, if imputation.Some? then imputation.value.totalImputed else 0))
  }

  /** A column with no missing cell under the imputer's mask is fully
      valid under the calculator's rule when both use the same zero flag. */
  lemma CleanColumnFullyValid(p: Pipeline, rows: seq<MdRow>, f: Field)
    requires f != Sku && Impute.MissingCount(ImputerOf(p), rows, f) == 0
    ensures Seqs.Count(rows, At(f, DqMetrics.ValidCell(CalculatorOf(p)))) == |rows|
  {
    var imp := ImputerOf(p);
    forall i | 0 <= i < |rows|
      ensures At(f, DqMetrics.ValidCell(CalculatorOf(p)))(rows[i])
    {
      assert !At(f, Impute.MissingOf(imp))(rows[i]);
      var v := Num(rows[i], f);
      assert !MissingCell(v, p.zeroAsMissing);
    }
    Seqs.CountAll(rows, At(f, DqMetrics.ValidCell(CalculatorOf(p))));
  }

  /** After the pipeline, every column the imputer reports a statistic for
      has 100% coverage in the metrics taken after imputation. */
  lemma ImputedColumnsFullyCovered(p: Pipeline, frame: MdFrame, limits: Option<seq<(string, real)>>, f: Field)
    requires f != Sku && f in frame.columns
    requires Run(p, frame, limits).Ok?
    requires var res := Run(p, frame, limits).value;
      res.imputation.Some? && exists st | st in res.imputation.value.stats :: st.fieldName == ColumnName(f)
    ensures DqMetrics.NumericCoverage(CalculatorOf(p), Run(p, frame, limits).value.frame, f).coveragePct == 100.0
  {
    var res := Run(p, frame, limits).value;
    var validated := Validators.MarkAsMissing(ValidatorOf(p), frame);
    assert res.imputation.value == Impute.Impute(ImputerOf(p), validated, None);
    ImputationFullyCovers(p, validated, f);
  }

  /** A column the imputer reports a statistic for is fully covered in the
      imputed frame. */
  lemma ImputationFullyCovers(p: Pipeline, validated: MdFrame, f: Field)
    requires f != Sku && f in validated.columns
    requires exists st | st in Impute.Impute(ImputerOf(p), validated, None).stats :: st.fieldName == ColumnName(f)
    ensures DqMetrics.NumericCoverage(CalculatorOf(p), Impute.Impute(ImputerOf(p), validated, None).frame, f).coveragePct == 100.0
  {
    var out := Impute.Impute(ImputerOf(p), validated, None).frame;
    Impute.ImputeCompletes(ImputerOf(p), validated, None, f);
    CleanColumnFullyValid(p, out.rows, f);
    assert |out.rows| > 0;
  }
}
