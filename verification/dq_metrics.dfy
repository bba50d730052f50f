/** The data-quality scorecard (src/quality/dq_metrics.py): per-column
    coverage, complete dimensions, record completeness and distinct SKUs. */
module DqMetrics {
  import opened Wrappers
  import opened Frame
  import Types
  import Seqs

  datatype FieldCoverage = FieldCoverage(
    fieldName: string,
    totalRecords: nat,
    nonNullCount: nat,
    nullCount: nat,
    zeroCount: nat,
    negativeCount: nat,
    validCount: nat,
    coveragePct: real)

  /** `missing_count`: null, zero and negative cells together. */
  function MissingCount(c: FieldCoverage): nat
  {
    c.nullCount + c.zeroCount + c.negativeCount
  }

  datatype Calculator = Calculator(zeroAsMissing: bool, negativeAsMissing: bool)

  /** `calculate_dq_metrics` uses both flags on. */
  const DefaultCalculator := Calculator(true, true)

  datatype Completeness = Completeness(complete: nat, partial: nat, empty: nat)

  datatype DataQualityMetrics = DataQualityMetrics(
    totalRecords: nat,
    uniqueSkuCount: nat,
    skuCoverage: FieldCoverage,
    lengthCoverage: FieldCoverage,
    widthCoverage: FieldCoverage,
    heightCoverage: FieldCoverage,
    weightCoverage: FieldCoverage,
    stockCoverage: Option<FieldCoverage>,
    dimensionsCoveragePct: real,
    weightCoveragePct: real,
    stockCoveragePct: real,
    records: Completeness)

  /** `valid / total * 100`, and 0 for an empty frame. */
  function CoveragePct(valid: nat, total: nat): (p: real)
    requires valid <= total
    ensures 0.0 <= p <= 100.0
    ensures total == 0 ==> p == 0.0
    ensures total > 0 && valid == total ==> p == 100.0
    ensures total > 0 && valid == 0 ==> p == 0.0
  {
    if total > 0 then
      var q := valid as real / total as real;
      assert q <= 1.0 by {
        assert (total as real - valid as real) / total as real >= 0.0;
      }
      q * 100.0
    else 0.0
  }

  lemma CoveragePctMonotone(a: nat, b: nat, total: nat)
    requires a <= b <= total
    ensures CoveragePct(a, total) <= CoveragePct(b, total)
  {
    if total > 0 {
      assert (b as real - a as real) / total as real >= 0.0;
    }
  }

  // ---------------------------------------------------------------------
  // Cell classes
  // ---------------------------------------------------------------------

  predicate IsNull(v: Option<real>) { v.None? }
  predicate IsZero(v: Option<real>) { EqTo(v, 0.0) }
  predicate IsNegative(v: Option<real>) { Lt(v, 0.0) }
  predicate IsPositive(v: Option<real>) { Gt(v, 0.0) }
  /** `(col != 0) & col.is_not_null()`. */
  predicate IsNonZero(v: Option<real>) { v.Some? && v.value != 0.0 }

  /** The `valid_count` rule of a numeric column. */
  function ValidCell(c: Calculator): (p: Option<real> -> bool)
    ensures forall v :: p(v) ==> v.Some?
  {
    if c.zeroAsMissing then (if c.negativeAsMissing then IsPositive else IsNonZero)
    else (v: Option<real>) => v.Some?
  }

  /** `_calculate_field_coverage` of a numeric column. */
  function NumericCoverage(c: Calculator, frame: MdFrame, f: Field): (r: FieldCoverage)
    requires f != Sku
    ensures r.fieldName == ColumnName(f) && r.totalRecords == |frame.rows|
    ensures r.nullCount + r.nonNullCount == r.totalRecords
    ensures r.validCount <= r.nonNullCount
    ensures f !in frame.columns ==> r.nullCount == |frame.rows| && r.validCount == 0 && r.coveragePct == 0.0
    ensures f in frame.columns ==>
      r.nullCount == Seqs.Count(frame.rows, At(f, IsNull)) &&
      r.zeroCount == Seqs.Count(frame.rows, At(f, IsZero)) &&
      r.negativeCount == Seqs.Count(frame.rows, At(f, IsNegative)) &&
      r.validCount == Seqs.Count(frame.rows, At(f, ValidCell(c)))
    ensures r.coveragePct == CoveragePct(r.validCount, r.totalRecords)
  {
    var total := |frame.rows|;
    if f !in frame.columns then FieldCoverage(ColumnName(f), total, 0, total, 0, 0, 0, 0.0)
    else
      var nulls := Seqs.Count(frame.rows, At(f, IsNull));
      var valid := Seqs.Count(frame.rows, At(f, ValidCell(c)));
      ValidBelowNonNull(c, frame.rows, f);
      FieldCoverage(ColumnName(f), total, total - nulls, nulls,
        Seqs.Count(frame.rows, At(f, IsZero)), Seqs.Count(frame.rows, At(f, IsNegative)),
        valid, CoveragePct(valid, total))
  }

  lemma ValidIsPresent(c: Calculator, v: Option<real>)
    ensures ValidCell(c)(v) ==> v.Some?
  {
    if c.zeroAsMissing {
      if c.negativeAsMissing {
        assert ValidCell(c)(v) == IsPositive(v);
      } else {
        assert ValidCell(c)(v) == IsNonZero(v);
      }
    }
  }

  lemma ValidBelowNonNull(c: Calculator, rows: seq<MdRow>, f: Field)
    ensures Seqs.Count(rows, At(f, ValidCell(c))) + Seqs.Count(rows, At(f, IsNull)) <= |rows|
  {
    var p := ValidCell(c);
    var valid := At(f, p);
    var isNull := At(f, IsNull);
    forall i | 0 <= i < |rows|
      ensures !(valid(rows[i]) && isNull(rows[i]))
    {
      var v := Num(rows[i], f);
      assert valid(rows[i]) == p(v);
      assert isNull(rows[i]) == IsNull(v);
      ValidIsPresent(c, v);
    }
    Seqs.CountDisjoint(rows, valid, isNull);
  }

  predicate SkuIsNull(row: MdRow) { row.sku.None? }

  /** `_calculate_field_coverage(df, "sku", is_numeric=False)`: no zero or
      negative counts, and every non-null SKU is valid. */
  function SkuCoverage(frame: MdFrame): (r: FieldCoverage)
    ensures r.totalRecords == |frame.rows| && r.zeroCount == 0 && r.negativeCount == 0
    ensures r.validCount == r.nonNullCount && r.nullCount + r.nonNullCount == r.totalRecords
    ensures Sku in frame.columns ==> r.nullCount == Seqs.Count(frame.rows, SkuIsNull)
    ensures Sku !in frame.columns ==> r.validCount == 0
    ensures r.coveragePct == CoveragePct(r.validCount, r.totalRecords)
  {
    var total := |frame.rows|;
    if Sku !in frame.columns then FieldCoverage("sku", total, 0, total, 0, 0, 0, 0.0)
    else
      var nulls := Seqs.Count(frame.rows, SkuIsNull);
      FieldCoverage("sku", total, total - nulls, nulls, 0, 0, total - nulls, CoveragePct(total - nulls, total))
  }

  /** With both flags on, every cell is exactly one of null, zero, negative
      or valid, so valid and missing add up to the total. */
  lemma ValidPlusMissing(frame: MdFrame, f: Field)
    requires f != Sku && f in frame.columns
    ensures var r := NumericCoverage(DefaultCalculator, frame, f);
      r.validCount + MissingCount(r) == r.totalRecords
  {
    CellPartition(frame.rows, f);
  }

  lemma {:induction false} CellPartition(rows: seq<MdRow>, f: Field)
    ensures Seqs.Count(rows, At(f, IsNull)) + Seqs.Count(rows, At(f, IsZero))
      + Seqs.Count(rows, At(f, IsNegative)) + Seqs.Count(rows, At(f, IsPositive)) == |rows|
  {
    if |rows| > 0 {
      CellPartition(rows[1..], f);
      var v := Num(rows[0], f);
      assert At(f, IsNull)(rows[0]) == IsNull(v);
      assert At(f, IsZero)(rows[0]) == IsZero(v);
      assert At(f, IsNegative)(rows[0]) == IsNegative(v);
      assert At(f, IsPositive)(rows[0]) == IsPositive(v);
    }
  }

  // ---------------------------------------------------------------------
  // Complete dimensions
  // ---------------------------------------------------------------------

  function DimPresent(c: Calculator): Option<real> -> bool
  {
    if c.zeroAsMissing then IsPositive else (v: Option<real>) => v.Some?
  }

  function DimsComplete(c: Calculator): MdRow -> bool
  {
    (row: MdRow) => DimPresent(c)(row.length) && DimPresent(c)(row.width) && DimPresent(c)(row.height)
  }

  /** `_count_complete_dimensions`: 0 unless all three columns exist. */
  function CompleteDimensions(c: Calculator, frame: MdFrame): (n: nat)
    ensures n <= |frame.rows|
    ensures !({Length, Width, Height} <= frame.columns) ==> n == 0
    ensures {Length, Width, Height} <= frame.columns ==> n == Seqs.Count(frame.rows, DimsComplete(c))
  {
    if {Length, Width, Height} <= frame.columns then Seqs.Count(frame.rows, DimsComplete(c)) else 0
  }

  /** Rows with complete dimensions are no more than the valid cells of any
      one dimension. */
  lemma CompleteDimensionsBelowEach(c: Calculator, frame: MdFrame, f: Field)
    requires f in {Length, Width, Height}
    ensures CompleteDimensions(c, frame) <= NumericCoverage(c, frame, f).validCount
  {
    if {Length, Width, Height} <= frame.columns {
      forall i | 0 <= i < |frame.rows| && DimsComplete(c)(frame.rows[i])
        ensures At(f, ValidCell(c))(frame.rows[i])
      {
        var v := Num(frame.rows[i], f);
        assert DimPresent(c)(v);
        assert ValidCell(c)(v);
      }
      Seqs.CountImplies(frame.rows, DimsComplete(c), At(f, ValidCell(c)));
    }
  }

  // ---------------------------------------------------------------------
  // Record completeness
  // ---------------------------------------------------------------------

  const RequiredFields := [Length, Width, Height, Weight]

  /** The required fields present, in order. */
  function AvailableFields(frame: MdFrame): (r: seq<Field>)
    ensures forall i :: 0 <= i < |r| ==> r[i] in frame.columns && r[i] in RequiredFields
    ensures forall f :: f in RequiredFields && f in frame.columns ==> f in r
    ensures |r| <= 4
  {
    (if Length in frame.columns then [Length] else []) + (if Width in frame.columns then [Width] else [])
    + (if Height in frame.columns then [Height] else []) + (if Weight in frame.columns then [Weight] else [])
  }

  /** Whether one cell counts towards `_valid_count`, or None when the
      comparison is null (a null cell under the zero flag). */
  function CellScore(c: Calculator, v: Option<real>): Option<nat>
  {
    if c.zeroAsMissing then (if v.None? then None else Some(if v.value > 0.0 then 1 else 0))
    else Some(if v.Some? then 1 else 0)
  }

  /** `_valid_count` as the program computes it: a sum in which one null
      term makes the whole sum null. */
  function ValidCountAsWritten(c: Calculator, row: MdRow, fs: seq<Field>): (r: Option<nat>)
    ensures r.Some? ==> r.value <= |fs|
  {
    if |fs| == 0 then Some(0)
    else
      var head := CellScore(c, Num(row, fs[0]));
      var rest := ValidCountAsWritten(c, row, fs[1..]);
      if head.None? || rest.None? then None else Some(head.value + rest.value)
  }

  /** The number of the fields `fs` whose cell counts as present, a null
      cell counting as absent. */
  function ValidCount(c: Calculator, row: MdRow, fs: seq<Field>): (r: nat)
    ensures r <= |fs|
    ensures r == 0 <==> forall i :: 0 <= i < |fs| ==> !DimPresent(c)(Num(row, fs[i]))
    ensures r == |fs| <==> forall i :: 0 <= i < |fs| ==> DimPresent(c)(Num(row, fs[i]))
  {
    if |fs| == 0 then 0
    else
      var rest := ValidCount(c, row, fs[1..]);
      assert forall i :: 1 <= i < |fs| ==> fs[i] == fs[1..][i - 1];
      (if DimPresent(c)(Num(row, fs[0])) then 1 else 0) + rest
  }

  /** Where the null-propagating count is defined, the two counts agree. */
  lemma {:induction false} CountsAgree(c: Calculator, row: MdRow, fs: seq<Field>)
    requires ValidCountAsWritten(c, row, fs).Some?
    ensures ValidCountAsWritten(c, row, fs).value == ValidCount(c, row, fs)
  {
    if |fs| > 0 {
      CountsAgree(c, row, fs[1..]);
    }
  }

  /** Under the zero flag the null-propagating count is null exactly when a
      cell of `fs` is null; without it it is never null. */
  lemma {:induction false} AsWrittenNullExactly(c: Calculator, row: MdRow, fs: seq<Field>)
    ensures ValidCountAsWritten(c, row, fs).None? <==>
      c.zeroAsMissing && exists i :: 0 <= i < |fs| && Num(row, fs[i]).None?
  {
    if |fs| > 0 {
      AsWrittenNullExactly(c, row, fs[1..]);
      if c.zeroAsMissing && Num(row, fs[0]).Some? && ValidCountAsWritten(c, row, fs[1..]).None? {
        var i :| 0 <= i < |fs[1..]| && Num(row, fs[1..][i]).None?;
        assert fs[i + 1] == fs[1..][i];
      }
      if exists i :: 0 <= i < |fs| && Num(row, fs[i]).None? {
        var i :| 0 <= i < |fs| && Num(row, fs[i]).None?;
        if i > 0 {
          assert fs[1..][i - 1] == fs[i];
        }
      }
    }
  }

  function CompleteAsWritten(c: Calculator, fs: seq<Field>): MdRow -> bool
  {
    (row: MdRow) => ValidCountAsWritten(c, row, fs) == Some(|fs|)
  }

  function EmptyAsWritten(c: Calculator, fs: seq<Field>): MdRow -> bool
  {
    (row: MdRow) => ValidCountAsWritten(c, row, fs) == Some(0)
  }

  /** No cell of the fields `fs` is null. */
  function NoNullIn(fs: seq<Field>): MdRow -> bool
  {
    (row: MdRow) => forall i :: 0 <= i < |fs| ==> Num(row, fs[i]).Some?
  }

  /** The rows the program counts as empty: no field counts as present and,
      under the zero flag, no field is null either. */
  function EmptyNoNull(c: Calculator, fs: seq<Field>): MdRow -> bool
  {
    (row: MdRow) => EmptyRow(c, fs)(row) && (!c.zeroAsMissing || NoNullIn(fs)(row))
  }

  /** Per row, the program's complete test is the corrected one, and its
      empty test is the corrected one with no null under the zero flag. */
  lemma AsWrittenRowTests(c: Calculator, row: MdRow, fs: seq<Field>)
    ensures CompleteAsWritten(c, fs)(row) == CompleteRow(c, fs)(row)
    ensures EmptyAsWritten(c, fs)(row) == EmptyNoNull(c, fs)(row)
  {
    AsWrittenNullExactly(c, row, fs);
    if ValidCountAsWritten(c, row, fs).Some? {
      CountsAgree(c, row, fs);
      assert EmptyAsWritten(c, fs)(row) == (ValidCount(c, row, fs) == 0);
      assert EmptyRow(c, fs)(row) == (ValidCount(c, row, fs) == 0);
      assert c.zeroAsMissing ==> NoNullIn(fs)(row);
    } else {
      var i :| 0 <= i < |fs| && Num(row, fs[i]).None?;
      assert !DimPresent(c)(Num(row, fs[i]));
      assert !NoNullIn(fs)(row);
    }
  }

  /** The program's complete and empty totals, through the row tests. */
  lemma AsWrittenTotals(c: Calculator, rows: seq<MdRow>, fs: seq<Field>)
    ensures Seqs.Count(rows, CompleteAsWritten(c, fs)) == Seqs.Count(rows, CompleteRow(c, fs))
    ensures Seqs.Count(rows, EmptyAsWritten(c, fs)) == Seqs.Count(rows, EmptyNoNull(c, fs))
  {
    forall i | 0 <= i < |rows|
      ensures CompleteAsWritten(c, fs)(rows[i]) == CompleteRow(c, fs)(rows[i])
      ensures EmptyAsWritten(c, fs)(rows[i]) == EmptyNoNull(c, fs)(rows[i])
    {
      AsWrittenRowTests(c, rows[i], fs);
    }
    Seqs.CountSame(rows, CompleteAsWritten(c, fs), CompleteRow(c, fs));
    Seqs.CountSame(rows, EmptyAsWritten(c, fs), EmptyNoNull(c, fs));
  }

  /** `_count_record_completeness` as written: a row whose count is null is
      neither complete nor empty, so it lands in partial. Complete rows are
      those with every available field present; empty rows those with none
      present and, under the zero flag, none null. */
  function RecordCompletenessAsWritten(c: Calculator, frame: MdFrame): (r: Completeness)
    ensures r.complete + r.partial + r.empty == |frame.rows|
    ensures AvailableFields(frame) == [] ==> r == Completeness(0, 0, |frame.rows|)
    ensures AvailableFields(frame) != [] ==>
      r.complete == Seqs.Count(frame.rows, CompleteRow(c, AvailableFields(frame)))
    ensures AvailableFields(frame) != [] ==>
      r.empty == Seqs.Count(frame.rows, EmptyNoNull(c, AvailableFields(frame)))
  {
    var fs := AvailableFields(frame);
    if |fs| == 0 then Completeness(0, 0, |frame.rows|)
    else
      var complete := Seqs.Count(frame.rows, CompleteAsWritten(c, fs));
      var empty := Seqs.Count(frame.rows, EmptyAsWritten(c, fs));
      Seqs.CountDisjoint(frame.rows, CompleteAsWritten(c, fs), EmptyAsWritten(c, fs));
      AsWrittenTotals(c, frame.rows, fs);
      Completeness(complete, |frame.rows| - complete - empty, empty)
  }

  /** One row, every dimension and the weight null, default flags. */
  const AllNullRow := MdRow(Some("A"), None, None, None, None, None, None, None, None, None, None)
  const AllNullFrame := MdFrame({Sku, Length, Width, Height, Weight}, {}, [AllNullRow])

  /** A row with every required field NULL is counted partial, not empty. */
  lemma AllNullRowCountedPartial()
    ensures RecordCompletenessAsWritten(DefaultCalculator, AllNullFrame) == Completeness(0, 1, 0)
  {
    AllNullFields();
    assert Num(AllNullFrame.rows[0], AvailableFields(AllNullFrame)[0]).None?;
    NullRowsCountedPartial(DefaultCalculator, AllNullFrame);
  }

  /** Under the zero flag, rows that each hold a null available field are
      all counted partial as written, whatever their other cells hold. */
  lemma NullRowsCountedPartial(c: Calculator, frame: MdFrame)
    requires c.zeroAsMissing && AvailableFields(frame) != []
    requires forall i :: 0 <= i < |frame.rows| ==>
      exists k :: 0 <= k < |AvailableFields(frame)| && Num(frame.rows[i], AvailableFields(frame)[k]).None?
    ensures RecordCompletenessAsWritten(c, frame) == Completeness(0, |frame.rows|, 0)
  {
    var fs := AvailableFields(frame);
    forall i | 0 <= i < |frame.rows|
      ensures !CompleteRow(c, fs)(frame.rows[i]) && !EmptyNoNull(c, fs)(frame.rows[i])
    {
      var k :| 0 <= k < |fs| && Num(frame.rows[i], fs[k]).None?;
      assert !DimPresent(c)(Num(frame.rows[i], fs[k]));
      assert !NoNullIn(fs)(frame.rows[i]);
    }
    Seqs.CountNone(frame.rows, CompleteRow(c, fs));
    Seqs.CountNone(frame.rows, EmptyNoNull(c, fs));
  }

  /** With null counted as absent the same row is empty. */
  lemma AllNullRowEmpty()
    ensures RecordCompleteness(DefaultCalculator, AllNullFrame) == Completeness(0, 0, 1)
  {
    var r := RecordCompleteness(DefaultCalculator, AllNullFrame);
    AllNullFields();
    AllNullRowCounts();
    assert |AllNullFrame.rows| == 1;
    assert r.complete == 0 && r.empty == 1;
  }

  lemma AllNullFields()
    ensures AvailableFields(AllNullFrame) == RequiredFields
  {
  }

  lemma AllNullRowCounts()
    ensures Seqs.Count(AllNullFrame.rows, CompleteRow(DefaultCalculator, RequiredFields)) == 0
    ensures Seqs.Count(AllNullFrame.rows, EmptyRow(DefaultCalculator, RequiredFields)) == 1
  {
    var fs := RequiredFields;
    var c := DefaultCalculator;
    var rows := AllNullFrame.rows;
    assert forall i :: 0 <= i < |fs| ==> Num(AllNullRow, fs[i]).None?;
    assert ValidCount(c, AllNullRow, fs) == 0;
    assert rows[1..] == [];
    assert !CompleteRow(c, fs)(rows[0]);
    assert EmptyRow(c, fs)(rows[0]);
  }

  function CompleteRow(c: Calculator, fs: seq<Field>): MdRow -> bool
  {
    (row: MdRow) => ValidCount(c, row, fs) == |fs|
  }

  function EmptyRow(c: Calculator, fs: seq<Field>): MdRow -> bool
  {
    (row: MdRow) => ValidCount(c, row, fs) == 0
  }

  /** Record completeness with a null cell counted as absent: complete rows
      have every available field, empty rows none, and the rest are partial. */
  function RecordCompleteness(c: Calculator, frame: MdFrame): (r: Completeness)
    ensures r.complete + r.partial + r.empty == |frame.rows|
    ensures AvailableFields(frame) == [] ==> r == Completeness(0, 0, |frame.rows|)
    ensures AvailableFields(frame) != [] ==>
      r.complete == Seqs.Count(frame.rows, CompleteRow(c, AvailableFields(frame))) &&
      r.empty == Seqs.Count(frame.rows, EmptyRow(c, AvailableFields(frame)))
  {
    var fs := AvailableFields(frame);
    if |fs| == 0 then Completeness(0, 0, |frame.rows|)
    else
      var complete := Seqs.Count(frame.rows, CompleteRow(c, fs));
      var empty := Seqs.Count(frame.rows, EmptyRow(c, fs));
      Seqs.CountDisjoint(frame.rows, CompleteRow(c, fs), EmptyRow(c, fs));
      Completeness(complete, |frame.rows| - complete - empty, empty)
  }

  /** Without null cells in the available fields, or without the zero flag,
      the program's count and the corrected count agree. */
  lemma CompletenessAgreesWithoutNulls(c: Calculator, frame: MdFrame)
    requires !c.zeroAsMissing || forall i, k :: 0 <= i < |frame.rows| && 0 <= k < |AvailableFields(frame)| ==>
      Num(frame.rows[i], AvailableFields(frame)[k]).Some?
    ensures RecordCompletenessAsWritten(c, frame) == RecordCompleteness(c, frame)
  {
    var fs := AvailableFields(frame);
    if |fs| > 0 {
      forall i | 0 <= i < |frame.rows|
        ensures ValidCountAsWritten(c, frame.rows[i], fs) == Some(ValidCount(c, frame.rows[i], fs))
      {
        AsWrittenNullExactly(c, frame.rows[i], fs);
        CountsAgree(c, frame.rows[i], fs);
      }
      Seqs.CountSame(frame.rows, CompleteAsWritten(c, fs), CompleteRow(c, fs));
      Seqs.CountSame(frame.rows, EmptyAsWritten(c, fs), EmptyRow(c, fs));
    }
  }

  // ---------------------------------------------------------------------
  // calculate()
  // ---------------------------------------------------------------------

  /** `n_unique` of the SKU column (a null counts as one value), or 0
      without the column. */
  function UniqueSkuCount(frame: MdFrame): (n: nat)
    ensures n <= |frame.rows|
    ensures Sku in frame.columns && |frame.rows| > 0 ==> n >= 1
    ensures Sku !in frame.columns ==> n == 0
    ensures Sku in frame.columns ==> n == |Seqs.Distinct(SkuCells(frame.rows))|
  {
    if Sku in frame.columns then
      var d := Seqs.Distinct(SkuCells(frame.rows));
      assert |frame.rows| > 0 ==> SkuCells(frame.rows)[0] in d;
      |d|
    else 0
  }

  /** A frame whose SKUs are all distinct has as many unique SKUs as rows. */
  lemma UniqueSkusOfDistinct(frame: MdFrame)
    requires Sku in frame.columns && Seqs.NoDup(SkuCells(frame.rows))
    ensures UniqueSkuCount(frame) == |frame.rows|
  {
    Seqs.DistinctOfNoDup(SkuCells(frame.rows));
  }

  /** `calculate`; record completeness is the program's count, which agrees
      with the corrected one whenever no null cell meets the zero flag (see
      `AllNullRowCountedPartial` for where they part). */
  function Calculate(c: Calculator, frame: MdFrame): (m: DataQualityMetrics)
    ensures m.totalRecords == |frame.rows|
    ensures 0.0 <= m.dimensionsCoveragePct <= 100.0 && 0.0 <= m.weightCoveragePct <= 100.0
    ensures 0.0 <= m.stockCoveragePct <= 100.0
    ensures m.dimensionsCoveragePct == CoveragePct(CompleteDimensions(c, frame), |frame.rows|)
    ensures m.weightCoveragePct == m.weightCoverage.coveragePct
    ensures m.stockCoverage.Some? <==> Stock in frame.columns
    ensures m.stockCoverage.Some? ==> m.stockCoveragePct == m.stockCoverage.value.coveragePct
    ensures m.stockCoverage.None? ==> m.stockCoveragePct == 0.0
    ensures m.records.complete + m.records.partial + m.records.empty == |frame.rows|
    ensures AvailableFields(frame) == [] ==> m.records == Completeness(0, 0, |frame.rows|)
    ensures AvailableFields(frame) != [] ==>
      m.records.complete == Seqs.Count(frame.rows, CompleteRow(c, AvailableFields(frame)))
    ensures AvailableFields(frame) != [] ==>
      m.records.empty == Seqs.Count(frame.rows, EmptyNoNull(c, AvailableFields(frame)))
    ensures (!c.zeroAsMissing || forall i, k :: 0 <= i < |frame.rows| && 0 <= k < |AvailableFields(frame)| ==>
      Num(frame.rows[i], AvailableFields(frame)[k]).Some?) ==> m.records == RecordCompleteness(c, frame)
    ensures m.uniqueSkuCount == UniqueSkuCount(frame)
  {
    var weight := NumericCoverage(c, frame, Weight);
    var stock := if Stock in frame.columns then Some(NumericCoverage(c, frame, Stock)) else None;
    assert (!c.zeroAsMissing || forall i, k :: 0 <= i < |frame.rows| && 0 <= k < |AvailableFields(frame)| ==>
      Num(frame.rows[i], AvailableFields(frame)[k]).Some?) ==>
      RecordCompletenessAsWritten(c, frame) == RecordCompleteness(c, frame) by {
      if !c.zeroAsMissing || forall i, k :: 0 <= i < |frame.rows| && 0 <= k < |AvailableFields(frame)| ==>
          Num(frame.rows[i], AvailableFields(frame)[k]).Some? {
        CompletenessAgreesWithoutNulls(c, frame);
      }
    }
    DataQualityMetrics(
      |frame.rows|,
      UniqueSkuCount(frame),
      SkuCoverage(frame),
      NumericCoverage(c, frame, Length),
      NumericCoverage(c, frame, Width),
      NumericCoverage(c, frame, Height),
      weight,
      stock,
      CoveragePct(CompleteDimensions(c, frame), |frame.rows|),
      weight.coveragePct,
      if stock.Some? then stock.value.coveragePct else 0.0,
      RecordCompletenessAsWritten(c, frame))
  }

  /** `to_scorecard`: the four coverage figures, every count zero. */
  function ToScorecard(m: DataQualityMetrics): (s: Types.DQScorecard)
    ensures s.totalRecords == m.totalRecords
    ensures s.dimensionsCoveragePct == m.dimensionsCoveragePct && s.weightCoveragePct == m.weightCoveragePct
    ensures s.stockCoveragePct == m.stockCoveragePct
    ensures Types.RawPenalty(s) == 0.0
  {
    Types.DQScorecard(m.totalRecords, m.dimensionsCoveragePct, m.weightCoveragePct, m.stockCoveragePct,
      0, 0, 0, 0, 0, 0, 0, 0)
  }
}
