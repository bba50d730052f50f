/** Masterdata validation (src/quality/validators.py): issues for null, zero,
    negative and out-of-range cells, the rotation-aware dimension check, the
    validity summary, and the frame with problem values nulled. */
module Validators {
  import opened Wrappers
  import opened Frame
  import Types
  import Config
  import Seqs
  import Capacity
  import DimensionChecker

  datatype Severity = Critical | Warning | Info

  datatype IssueType = MissingValue | ZeroValue | NegativeValue | Outlier | Duplicate | Conflict | InvalidFormat

  /** `ValidationIssue`; `value` is the cell the issue is about (null for a
      missing cell and for the rotation check, which reports all three
      dimensions as text). */
  datatype Issue = Issue(sku: string, field: string, issueType: IssueType, severity: Severity, value: Option<real>)

  /** One entry of a custom `outlier_thresholds` dict; a key it lacks keeps
      the default. */
  datatype BoundsUpdate = BoundsUpdate(min: Option<real>, max: Option<real>)

  datatype Validator = Validator(
    zeroAsMissingDimensions: bool,
    zeroAsMissingWeight: bool,
    zeroAsMissingQuantities: bool,
    negativeAsMissing: bool,
    outlierValidation: bool,
    thresholds: seq<(Field, Config.Bounds)>,
    carriers: seq<Types.CarrierConfig>)

  /** The default range of a numeric column. */
  function DefaultBounds(f: Field): Config.Bounds
    requires f != Sku
  {
    Config.OutlierThresholds[ColumnName(f)]
  }

  /** `__init__`'s merge: the defaults in their order, each overridden key by
      key by the custom entry of the same column; custom entries for other
      names are ignored. */
  function MergeThresholds(custom: map<string, BoundsUpdate>): (t: seq<(Field, Config.Bounds)>)
    ensures |t| == |NumericFields|
    ensures forall i :: 0 <= i < |t| ==> t[i].0 == NumericFields[i] && t[i].0 != Sku
    ensures forall i :: 0 <= i < |t| && ColumnName(t[i].0) !in custom ==> t[i].1 == DefaultBounds(t[i].0)
    ensures forall i :: 0 <= i < |t| && ColumnName(t[i].0) in custom ==>
      var u := custom[ColumnName(t[i].0)];
      (u.min.Some? ==> t[i].1.min == u.min.value) && (u.min.None? ==> t[i].1.min == DefaultBounds(t[i].0).min) &&
      (u.max.Some? ==> t[i].1.max == u.max.value) && (u.max.None? ==> t[i].1.max == DefaultBounds(t[i].0).max)
  {
    seq(|NumericFields|, i requires 0 <= i < |NumericFields| =>
      var f := NumericFields[i];
      var d := DefaultBounds(f);
      var name := ColumnName(f);
      if name in custom then (f, Config.Bounds(custom[name].min.GetOr(d.min), custom[name].max.GetOr(d.max)))
      else (f, d))
  }

  /** A custom entry for a name that is not a numeric column changes nothing. */
  lemma UnknownThresholdIgnored(custom: map<string, BoundsUpdate>, name: string, u: BoundsUpdate)
    requires forall f: Field :: f != Sku ==> ColumnName(f) != name
    ensures MergeThresholds(custom[name := u]) == MergeThresholds(custom)
  {
    var a := MergeThresholds(custom[name := u]);
    var b := MergeThresholds(custom);
    forall i | 0 <= i < |a|
      ensures a[i] == b[i]
    {
      assert ColumnName(NumericFields[i]) != name;
    }
  }

  /** `MasterdataValidator(...)`; no custom dict and no carriers give the
      defaults and skip the rotation check. */
  function NewValidator(zeroDims: bool, zeroWeight: bool, zeroQty: bool, negative: bool, outliers: bool,
                        custom: Option<map<string, BoundsUpdate>>, carriers: Option<seq<Types.CarrierConfig>>): (v: Validator)
    ensures forall i :: 0 <= i < |v.thresholds| ==> v.thresholds[i].0 != Sku
    ensures custom.None? ==> forall i :: 0 <= i < |v.thresholds| ==> v.thresholds[i].1 == DefaultBounds(v.thresholds[i].0)
    ensures carriers.None? ==> v.carriers == []
  {
    Validator(zeroDims, zeroWeight, zeroQty, negative, outliers,
      MergeThresholds(custom.GetOr(map[])), carriers.GetOr([]))
  }

  // ---------------------------------------------------------------------
  // Issue builders
  // ---------------------------------------------------------------------

  /** The issue a check raises for the `f` cell of `row`. */
  function CellIssue(row: MdRow, f: Field, t: IssueType, sev: Severity): Issue
  {
    Issue(SkuText(row.sku), ColumnName(f), t, sev, Num(row, f))
  }

  /** `x` is the issue of some row whose `f` cell satisfies `p`. */
  predicate FromCell(rows: seq<MdRow>, f: Field, p: Option<real> -> bool, t: IssueType, sev: Severity, x: Issue)
  {
    exists j :: 0 <= j < |rows| && p(Num(rows[j], f)) && x == CellIssue(rows[j], f, t, sev)
  }

  /** Every row whose `f` cell satisfies `p` has its issue in `r`. */
  predicate CoversCells(r: seq<Issue>, rows: seq<MdRow>, f: Field, p: Option<real> -> bool, t: IssueType, sev: Severity)
  {
    forall j :: 0 <= j < |rows| && p(Num(rows[j], f)) ==> CellIssue(rows[j], f, t, sev) in r
  }

  /** One issue per row whose `f` cell satisfies `p`, in row order. */
  function CellIssues(rows: seq<MdRow>, f: Field, p: Option<real> -> bool, t: IssueType, sev: Severity): (r: seq<Issue>)
    ensures |r| == Seqs.Count(rows, At(f, p))
    ensures forall i :: 0 <= i < |r| ==>
      r[i].field == ColumnName(f) && r[i].issueType == t && r[i].severity == sev && p(r[i].value)
    ensures forall x | x in r :: FromCell(rows, f, p, t, sev, x)
    ensures CoversCells(r, rows, f, p, t, sev)
  {
    if |rows| == 0 then []
    else
      var rest := CellIssues(rows[1..], f, p, t, sev);
      var head := if p(Num(rows[0], f)) then [CellIssue(rows[0], f, t, sev)] else [];
      CellStep(rows, f, p, t, sev, head, rest);
      CellShape(rows, f, p, t, sev, head + rest);
      head + rest
  }

  /** Issues that come from matching cells of `f` carry the column, the
      check's type and severity, and a matching value. */
  lemma CellShape(rows: seq<MdRow>, f: Field, p: Option<real> -> bool, t: IssueType, sev: Severity, r: seq<Issue>)
    requires forall x | x in r :: FromCell(rows, f, p, t, sev, x)
    ensures forall i :: 0 <= i < |r| ==>
      r[i].field == ColumnName(f) && r[i].issueType == t && r[i].severity == sev && p(r[i].value)
  {
    forall i | 0 <= i < |r|
      ensures r[i].field == ColumnName(f) && r[i].issueType == t && r[i].severity == sev && p(r[i].value)
    {
      assert r[i] in r;
      var j :| 0 <= j < |rows| && p(Num(rows[j], f)) && r[i] == CellIssue(rows[j], f, t, sev);
    }
  }

  /** The first row's issue, if any, followed by the rest's issues, comes
      from the rows and covers them. */
  lemma CellStep(rows: seq<MdRow>, f: Field, p: Option<real> -> bool, t: IssueType, sev: Severity,
                 head: seq<Issue>, rest: seq<Issue>)
    requires |rows| > 0 && head == (if p(Num(rows[0], f)) then [CellIssue(rows[0], f, t, sev)] else [])
    requires forall x | x in rest :: FromCell(rows[1..], f, p, t, sev, x)
    requires CoversCells(rest, rows[1..], f, p, t, sev)
    ensures forall x | x in head + rest :: FromCell(rows, f, p, t, sev, x)
    ensures CoversCells(head + rest, rows, f, p, t, sev)
  {
    forall x | x in head + rest
      ensures FromCell(rows, f, p, t, sev, x)
    {
      if x in rest {
        var j :| 0 <= j < |rows[1..]| && p(Num(rows[1..][j], f)) && x == CellIssue(rows[1..][j], f, t, sev);
        assert rows[j + 1] == rows[1..][j];
      } else {
        assert x == CellIssue(rows[0], f, t, sev);
      }
    }
    forall j | 0 <= j < |rows| && p(Num(rows[j], f))
      ensures CellIssue(rows[j], f, t, sev) in head + rest
    {
      if j > 0 {
        assert rows[1..][j - 1] == rows[j];
      }
    }
  }

  /** `x` is the issue of a matching cell of some listed column the frame has. */
  predicate FromFields(frame: MdFrame, fs: seq<Field>, p: Option<real> -> bool, t: IssueType, sev: Severity, x: Issue)
  {
    exists k :: 0 <= k < |fs| && fs[k] in frame.columns && FromCell(frame.rows, fs[k], p, t, sev, x)
  }

  /** Every matching cell of every listed column the frame has is reported. */
  predicate CoversFields(r: seq<Issue>, frame: MdFrame, fs: seq<Field>, p: Option<real> -> bool, t: IssueType, sev: Severity)
  {
    forall k :: 0 <= k < |fs| && fs[k] in frame.columns ==> CoversCells(r, frame.rows, fs[k], p, t, sev)
  }

  /** The number of matching cells over the listed columns the frame has. */
  function FieldsCount(frame: MdFrame, fs: seq<Field>, p: Option<real> -> bool): nat
  {
    if |fs| == 0 then 0
    else (if fs[0] in frame.columns then Seqs.Count(frame.rows, At(fs[0], p)) else 0) + FieldsCount(frame, fs[1..], p)
  }

  /** `CellIssues` for each of `fs` that is a column of the frame, in order:
      exactly one issue per matching cell of those columns. */
  function FieldsIssues(frame: MdFrame, fs: seq<Field>, p: Option<real> -> bool, t: IssueType, sev: Severity): (r: seq<Issue>)
    ensures |r| == FieldsCount(frame, fs, p)
    ensures forall x | x in r :: FromFields(frame, fs, p, t, sev, x)
    ensures CoversFields(r, frame, fs, p, t, sev)
    ensures forall i :: 0 <= i < |r| ==> r[i].issueType == t && r[i].severity == sev && p(r[i].value)
    ensures (forall k :: 0 <= k < |fs| ==> fs[k] !in frame.columns) ==> r == []
    ensures Sku !in fs ==> forall x | x in r :: x.field != "sku"
  {
    if |fs| == 0 then []
    else
      var here := if fs[0] in frame.columns then CellIssues(frame.rows, fs[0], p, t, sev) else [];
      var rest := FieldsIssues(frame, fs[1..], p, t, sev);
      ConcatFrom(frame, fs, p, t, sev, here, rest);
      ConcatCovers(frame, fs, p, t, sev, here, rest);
      FromFieldsShape(frame, fs, p, t, sev, here + rest);
      assert (forall k :: 0 <= k < |fs| ==> fs[k] !in frame.columns) ==> here == [] && rest == [] by {
        if forall k :: 0 <= k < |fs| ==> fs[k] !in frame.columns {
          assert fs[0] !in frame.columns;
          assert forall k :: 0 <= k < |fs[1..]| ==> fs[1..][k] == fs[k + 1];
        }
      }
      here + rest
  }

  /** Issues that come from the listed columns carry the check's type,
      severity and a matching value, and name a listed column. */
  lemma FromFieldsShape(frame: MdFrame, fs: seq<Field>, p: Option<real> -> bool, t: IssueType, sev: Severity, r: seq<Issue>)
    requires forall x | x in r :: FromFields(frame, fs, p, t, sev, x)
    ensures forall i :: 0 <= i < |r| ==> r[i].issueType == t && r[i].severity == sev && p(r[i].value)
    ensures Sku !in fs ==> forall x | x in r :: x.field != "sku"
  {
    forall x | x in r
      ensures x.issueType == t && x.severity == sev && p(x.value)
      ensures Sku !in fs ==> x.field != "sku"
    {
      var k :| 0 <= k < |fs| && fs[k] in frame.columns && FromCell(frame.rows, fs[k], p, t, sev, x);
      var j :| 0 <= j < |frame.rows| && p(Num(frame.rows[j], fs[k])) && x == CellIssue(frame.rows[j], fs[k], t, sev);
      assert fs[k] in fs;
    }
    assert forall i :: 0 <= i < |r| ==> r[i] in r;
  }

  /** The issues of the first field followed by those of the rest each come
      from a listed column. */
  lemma ConcatFrom(frame: MdFrame, fs: seq<Field>, p: Option<real> -> bool, t: IssueType, sev: Severity,
                   here: seq<Issue>, rest: seq<Issue>)
    requires |fs| > 0 && (here != [] ==> fs[0] in frame.columns)
    requires forall x | x in here :: FromCell(frame.rows, fs[0], p, t, sev, x)
    requires forall x | x in rest :: FromFields(frame, fs[1..], p, t, sev, x)
    ensures forall x | x in here + rest :: FromFields(frame, fs, p, t, sev, x)
  {
    forall x | x in here + rest
      ensures FromFields(frame, fs, p, t, sev, x)
    {
      if x in rest {
        var k :| 0 <= k < |fs[1..]| && fs[1..][k] in frame.columns && FromCell(frame.rows, fs[1..][k], p, t, sev, x);
        assert fs[k + 1] == fs[1..][k];
      } else {
        assert x in here;
      }
    }
  }

  /** The issues of the first field followed by those of the rest cover
      every listed column. */
  lemma ConcatCovers(frame: MdFrame, fs: seq<Field>, p: Option<real> -> bool, t: IssueType, sev: Severity,
                     here: seq<Issue>, rest: seq<Issue>)
    requires |fs| > 0
    requires fs[0] in frame.columns ==> CoversCells(here, frame.rows, fs[0], p, t, sev)
    requires CoversFields(rest, frame, fs[1..], p, t, sev)
    ensures CoversFields(here + rest, frame, fs, p, t, sev)
  {
    forall k, j | 0 <= k < |fs| && fs[k] in frame.columns && 0 <= j < |frame.rows| && p(Num(frame.rows[j], fs[k]))
      ensures CellIssue(frame.rows[j], fs[k], t, sev) in here + rest
    {
      if k > 0 {
        assert fs[1..][k - 1] == fs[k];
      }
    }
  }

  function IsNull(v: Option<real>): bool { v.None? }
  function IsZero(v: Option<real>): bool { EqTo(v, 0.0) }
  function IsNegative(v: Option<real>): bool { Lt(v, 0.0) }

  /** A non-null, positive value strictly outside `[min, max]`. */
  function OutsideBounds(b: Config.Bounds): Option<real> -> bool
  {
    (v: Option<real>) => v.Some? && v.value > 0.0 && (v.value < b.min || v.value > b.max)
  }

  /** CRITICAL issues for null SKU cells. */
  function SkuMissingIssues(rows: seq<MdRow>): (r: seq<Issue>)
    ensures |r| == Seqs.Count(rows, NullSku)
    ensures forall i :: 0 <= i < |r| ==> r[i] == Issue("None", "sku", MissingValue, Critical, None)
  {
    if |rows| == 0 then []
    else
      var rest := SkuMissingIssues(rows[1..]);
      if rows[0].sku.None? then [Issue("None", "sku", MissingValue, Critical, None)] + rest else rest
  }

  predicate NullSku(row: MdRow) { row.sku.None? }

  /** The measurement columns `_validate_missing` checks after the SKU. */
  const MeasuredFields: seq<Field> := [Length, Width, Height, Weight]

  /** `_validate_missing`: the SKU column first (CRITICAL), then the four
      measurement columns (WARNING); one issue per null cell of a column the
      frame has, and no other. */
  function MissingIssues(frame: MdFrame): (r: seq<Issue>)
    ensures forall x | x in r :: MissingShape(x)
    ensures |r| == (if Sku in frame.columns then Seqs.Count(frame.rows, NullSku) else 0)
                   + FieldsCount(frame, MeasuredFields, IsNull)
    ensures Sku in frame.columns && (exists j :: 0 <= j < |frame.rows| && frame.rows[j].sku.None?) ==>
      Issue("None", "sku", MissingValue, Critical, None) in r
    ensures CoversFields(r, frame, MeasuredFields, IsNull, MissingValue, Warning)
  {
    var skuPart := SkuPart(frame);
    var fieldPart := FieldPart(frame);
    assert forall x | x in fieldPart :: MissingShape(x);
    assert Sku in frame.columns && (exists j :: 0 <= j < |frame.rows| && frame.rows[j].sku.None?) ==>
      Issue("None", "sku", MissingValue, Critical, None) in skuPart + fieldPart by {
      if Sku in frame.columns && exists j :: 0 <= j < |frame.rows| && frame.rows[j].sku.None? {
        var j :| 0 <= j < |frame.rows| && frame.rows[j].sku.None?;
        Seqs.CountPositive(frame.rows, NullSku, j);
        assert skuPart[0] in skuPart + fieldPart;
      }
    }
    CoversFieldsWithin(fieldPart, skuPart + fieldPart, frame, MeasuredFields, IsNull, MissingValue, Warning);
    skuPart + fieldPart
  }

  /** Coverage survives moving to a sequence holding at least the same issues. */
  lemma CoversFieldsWithin(r: seq<Issue>, r': seq<Issue>, frame: MdFrame, fs: seq<Field>, p: Option<real> -> bool,
                           t: IssueType, sev: Severity)
    requires CoversFields(r, frame, fs, p, t, sev) && forall x | x in r :: x in r'
    ensures CoversFields(r', frame, fs, p, t, sev)
  {
  }

  lemma CoversCellsWithin(r: seq<Issue>, r': seq<Issue>, rows: seq<MdRow>, f: Field, p: Option<real> -> bool,
                          t: IssueType, sev: Severity)
    requires CoversCells(r, rows, f, p, t, sev) && forall x | x in r :: x in r'
    ensures CoversCells(r', rows, f, p, t, sev)
  {
  }

  /** A MISSING_VALUE issue with a null value, CRITICAL exactly for the SKU
      column and WARNING otherwise. */
  predicate MissingShape(x: Issue)
  {
    x.issueType == MissingValue && x.value.None? &&
    (if x.field == "sku" then x.severity == Critical else x.severity == Warning)
  }

  /** The null cells of the four measurement columns. */
  function FieldPart(frame: MdFrame): (r: seq<Issue>)
    ensures forall x | x in r :: x.field != "sku" && x.severity == Warning && x.issueType == MissingValue && x.value.None?
    ensures |r| == FieldsCount(frame, MeasuredFields, IsNull)
    ensures forall x | x in r :: FromFields(frame, MeasuredFields, IsNull, MissingValue, Warning, x)
    ensures CoversFields(r, frame, MeasuredFields, IsNull, MissingValue, Warning)
  {
    FieldsIssues(frame, MeasuredFields, IsNull, MissingValue, Warning)
  }

  function SkuPart(frame: MdFrame): (r: seq<Issue>)
    ensures |r| == (if Sku in frame.columns then Seqs.Count(frame.rows, NullSku) else 0)
    ensures forall i :: 0 <= i < |r| ==> r[i] == Issue("None", "sku", MissingValue, Critical, None)
  {
    if Sku in frame.columns then SkuMissingIssues(frame.rows) else []
  }

  /** Zero-cell issues of one column with the given severity. */
  function ZeroCells(frame: MdFrame, f: Field, sev: Severity): (r: seq<Issue>)
    ensures f !in frame.columns ==> r == []
    ensures f in frame.columns ==> |r| == Seqs.Count(frame.rows, At(f, IsZero))
    ensures f in frame.columns ==> CoversCells(r, frame.rows, f, IsZero, ZeroValue, sev)
    ensures forall i :: 0 <= i < |r| ==>
      (r[i].issueType == ZeroValue && r[i].value == Some(0.0) && r[i].severity == sev && r[i].field == ColumnName(f))
  {
    if f in frame.columns then CellIssues(frame.rows, f, IsZero, ZeroValue, sev) else []
  }

  /** Whether a zero issue on `field` with severity `sev` is one the flags
      of `v` ask for. */
  predicate ZeroAllowed(v: Validator, x: Issue)
  {
    x.issueType == ZeroValue && x.value == Some(0.0) &&
    ((x.field in {"length_mm", "width_mm", "height_mm"} && x.severity == Warning && v.zeroAsMissingDimensions) ||
     (x.field == "weight_kg" && x.severity == Warning && v.zeroAsMissingWeight) ||
     (x.field == "stock_qty" && x.severity == Info && v.zeroAsMissingQuantities))
  }

  /** `_validate_zeros`: zero dimensions and weight are WARNINGs and zero stock
      is INFO, each only under its flag. */
  function ZeroIssues(v: Validator, frame: MdFrame): (r: seq<Issue>)
    ensures forall x | x in r :: ZeroAllowed(v, x)
    ensures |r| == ZeroCount(v, frame, Length, v.zeroAsMissingDimensions) + ZeroCount(v, frame, Width, v.zeroAsMissingDimensions)
                   + ZeroCount(v, frame, Height, v.zeroAsMissingDimensions) + ZeroCount(v, frame, Weight, v.zeroAsMissingWeight)
                   + ZeroCount(v, frame, Stock, v.zeroAsMissingQuantities)
    ensures forall f | f in frame.columns && ZeroFlagged(v, f, ZeroSeverity(f)) ::
      CoversCells(r, frame.rows, f, IsZero, ZeroValue, ZeroSeverity(f))
  {
    var l := ZeroPart(v, frame, Length, v.zeroAsMissingDimensions, Warning);
    var w := ZeroPart(v, frame, Width, v.zeroAsMissingDimensions, Warning);
    var h := ZeroPart(v, frame, Height, v.zeroAsMissingDimensions, Warning);
    var weight := ZeroPart(v, frame, Weight, v.zeroAsMissingWeight, Warning);
    var stock := ZeroPart(v, frame, Stock, v.zeroAsMissingQuantities, Info);
    var r := l + w + h + weight + stock;
    forall f | f in frame.columns && ZeroFlagged(v, f, ZeroSeverity(f))
      ensures CoversCells(r, frame.rows, f, IsZero, ZeroValue, ZeroSeverity(f))
    {
      var part := match f
        case Length => l
        case Width => w
        case Height => h
        case Weight => weight
        case Stock => stock
        case Sku => [];
      CoversCellsWithin(part, r, frame.rows, f, IsZero, ZeroValue, ZeroSeverity(f));
    }
    r
  }

  /** The severity of a zero issue: INFO for stock, WARNING otherwise. */
  function ZeroSeverity(f: Field): Severity
  {
    if f == Stock then Info else Warning
  }

  /** The number of zero issues of one column: its zero cells when its flag
      is on and the frame has it, none otherwise. */
  function ZeroCount(v: Validator, frame: MdFrame, f: Field, on: bool): nat
  {
    if on && f in frame.columns then Seqs.Count(frame.rows, At(f, IsZero)) else 0
  }

  /** `v` asks for zero issues of severity `sev` on column `f`. */
  predicate ZeroFlagged(v: Validator, f: Field, sev: Severity)
  {
    (f in {Length, Width, Height} && sev == Warning && v.zeroAsMissingDimensions) ||
    (f == Weight && sev == Warning && v.zeroAsMissingWeight) ||
    (f == Stock && sev == Info && v.zeroAsMissingQuantities)
  }

  /** The zero issues of one column when its flag is on, none otherwise. */
  function ZeroPart(v: Validator, frame: MdFrame, f: Field, on: bool, sev: Severity): (r: seq<Issue>)
    requires on ==> ZeroFlagged(v, f, sev)
    ensures forall x | x in r :: ZeroAllowed(v, x)
    ensures |r| == ZeroCount(v, frame, f, on)
    ensures on && f in frame.columns ==> CoversCells(r, frame.rows, f, IsZero, ZeroValue, sev)
  {
    if on then
      var r := ZeroCells(frame, f, sev);
      assert forall x | x in r :: x.field == ColumnName(f);
      r
    else []
  }

  /** `_validate_negatives`: nothing unless negatives count as missing, then
      one WARNING per negative cell of every numeric column. */
  function NegativeIssues(v: Validator, frame: MdFrame): (r: seq<Issue>)
    ensures !v.negativeAsMissing ==> r == []
    ensures v.negativeAsMissing ==> |r| == FieldsCount(frame, NumericFields, IsNegative)
    ensures v.negativeAsMissing ==> CoversFields(r, frame, NumericFields, IsNegative, NegativeValue, Warning)
    ensures forall x | x in r :: FromFields(frame, NumericFields, IsNegative, NegativeValue, Warning, x)
    ensures forall i :: 0 <= i < |r| ==>
      (r[i].issueType == NegativeValue && r[i].severity == Warning && r[i].value.Some? && r[i].value.value < 0.0)
  {
    if !v.negativeAsMissing then [] else FieldsIssues(frame, NumericFields, IsNegative, NegativeValue, Warning)
  }

  /** Whether `x` is a static outlier issue for some configured column of
      the frame. */
  predicate StaticOutlierOf(thresholds: seq<(Field, Config.Bounds)>, frame: MdFrame, x: Issue)
  {
    x.issueType == Outlier && x.severity == Warning &&
    exists k :: 0 <= k < |thresholds| && OutlierAt(thresholds[k], frame, x)
  }

  predicate OutlierAt(t: (Field, Config.Bounds), frame: MdFrame, x: Issue)
  {
    x.field == ColumnName(t.0) && t.0 in frame.columns && OutsideBounds(t.1)(x.value)
  }

  /** The static range check of every configured column present. */
  function StaticOutliers(thresholds: seq<(Field, Config.Bounds)>, frame: MdFrame): (r: seq<Issue>)
    ensures forall x | x in r :: StaticOutlierOf(thresholds, frame, x)
    ensures |r| == StaticCount(thresholds, frame)
    ensures forall k | 0 <= k < |thresholds| && thresholds[k].0 in frame.columns ::
      CoversCells(r, frame.rows, thresholds[k].0, OutsideBounds(thresholds[k].1), Outlier, Warning)
  {
    if |thresholds| == 0 then []
    else
      var f := thresholds[0].0;
      var here := if f in frame.columns then CellIssues(frame.rows, f, OutsideBounds(thresholds[0].1), Outlier, Warning) else [];
      var rest := StaticOutliers(thresholds[1..], frame);
      forall x | x in rest
        ensures StaticOutlierOf(thresholds, frame, x)
      {
        var k :| 0 <= k < |thresholds[1..]| && OutlierAt(thresholds[1..][k], frame, x);
        assert thresholds[k + 1] == thresholds[1..][k];
      }
      forall x | x in here
        ensures StaticOutlierOf(thresholds, frame, x)
      {
        assert OutlierAt(thresholds[0], frame, x);
      }
      forall k | 0 <= k < |thresholds| && thresholds[k].0 in frame.columns
        ensures CoversCells(here + rest, frame.rows, thresholds[k].0, OutsideBounds(thresholds[k].1), Outlier, Warning)
      {
        if k == 0 {
          CoversCellsWithin(here, here + rest, frame.rows, f, OutsideBounds(thresholds[0].1), Outlier, Warning);
        } else {
          assert thresholds[1..][k - 1] == thresholds[k];
          CoversCellsWithin(rest, here + rest, frame.rows, thresholds[k].0, OutsideBounds(thresholds[k].1), Outlier, Warning);
        }
      }
      here + rest
  }

  /** The number of out-of-range cells over the configured columns the frame
      has. */
  function StaticCount(thresholds: seq<(Field, Config.Bounds)>, frame: MdFrame): nat
  {
    if |thresholds| == 0 then 0
    else
      (if thresholds[0].0 in frame.columns then Seqs.Count(frame.rows, At(thresholds[0].0, OutsideBounds(thresholds[0].1))) else 0)
      + StaticCount(thresholds[1..], frame)
  }

  // ---------------------------------------------------------------------
  // Rotation-aware dimension check
  // ---------------------------------------------------------------------

  /** A row of the positive-dimension subset that fits no active carrier in
      any orientation. */
  predicate Oversized(row: MdRow, carriers: seq<Types.CarrierConfig>)
  {
    Gt(row.length, 0.0) && Gt(row.width, 0.0) && Gt(row.height, 0.0) &&
    !DimensionChecker.CanFitAnyCarrier(Capacity.Dims(row.length.value, row.width.value, row.height.value), carriers)
  }

  /** The SKU texts of the oversized rows. */
  function OversizedSkus(rows: seq<MdRow>, carriers: seq<Types.CarrierConfig>): set<string>
  {
    set i | 0 <= i < |rows| && Oversized(rows[i], carriers) :: SkuText(rows[i].sku)
  }

  function RotationIssue(sku: string): Issue
  {
    Issue(sku, "dimensions", Outlier, Warning, None)
  }

  function IssueSkus(r: seq<Issue>): set<string>
  {
    set i | 0 <= i < |r| :: r[i].sku
  }

  lemma OversizedSkusCons(rows: seq<MdRow>, carriers: seq<Types.CarrierConfig>)
    requires |rows| > 0
    ensures OversizedSkus(rows, carriers) ==
      (if Oversized(rows[0], carriers) then {SkuText(rows[0].sku)} else {}) + OversizedSkus(rows[1..], carriers)
  {
    var a := OversizedSkus(rows, carriers);
    var b := (if Oversized(rows[0], carriers) then {SkuText(rows[0].sku)} else {}) + OversizedSkus(rows[1..], carriers);
    forall x | x in a ensures x in b {
      var i :| 0 <= i < |rows| && Oversized(rows[i], carriers) && SkuText(rows[i].sku) == x;
      if i > 0 {
        assert rows[1..][i - 1] == rows[i];
      }
    }
    forall x | x in b ensures x in a {
      if x !in OversizedSkus(rows[1..], carriers) {
        assert Oversized(rows[0], carriers) && SkuText(rows[0].sku) == x;
      } else {
        var i :| 0 <= i < |rows[1..]| && Oversized(rows[1..][i], carriers) && SkuText(rows[1..][i].sku) == x;
        assert rows[i + 1] == rows[1..][i];
      }
    }
  }

  /** The loop of `_validate_dimensional_outliers_with_rotation`, with
      `checked` the SKUs already reported: one issue for each SKU of an
      oversized row that has not been reported, in row order. */
  function RotationScan(rows: seq<MdRow>, carriers: seq<Types.CarrierConfig>, checked: set<string>): (r: seq<Issue>)
    ensures forall i :: 0 <= i < |r| ==> r[i] == RotationIssue(r[i].sku) && r[i].sku !in checked
    ensures forall i, j :: 0 <= i < j < |r| ==> r[i].sku != r[j].sku
    ensures IssueSkus(r) == OversizedSkus(rows, carriers) - checked
    decreases |rows|
  {
    if |rows| == 0 then []
    else
      var sku := SkuText(rows[0].sku);
      OversizedSkusCons(rows, carriers);
      if Oversized(rows[0], carriers) && sku !in checked then
        var rest := RotationScan(rows[1..], carriers, checked + {sku});
        var r := [RotationIssue(sku)] + rest;
        assert forall i :: 1 <= i < |r| ==> r[i] == rest[i - 1];
        assert IssueSkus(r) == {sku} + IssueSkus(rest) by {
          forall x | x in IssueSkus(r) ensures x in {sku} + IssueSkus(rest) {
            var i :| 0 <= i < |r| && r[i].sku == x;
            if i > 0 { assert rest[i - 1].sku == x; }
          }
          forall x | x in IssueSkus(rest) ensures x in IssueSkus(r) {
            var i :| 0 <= i < |rest| && rest[i].sku == x;
            assert r[i + 1].sku == x;
          }
          assert r[0].sku == sku;
        }
        r
      else
        RotationScan(rows[1..], carriers, checked)
  }

  /** The rotation check: nothing without carriers or without the SKU and
      three dimension columns. */
  function RotationIssues(carriers: seq<Types.CarrierConfig>, frame: MdFrame): (r: seq<Issue>)
    ensures carriers == [] || !({Sku, Length, Width, Height} <= frame.columns) ==> r == []
    ensures forall i, j :: 0 <= i < j < |r| ==> r[i].sku != r[j].sku
    ensures forall i :: 0 <= i < |r| ==> r[i] == RotationIssue(r[i].sku)
    ensures carriers != [] && {Sku, Length, Width, Height} <= frame.columns ==>
      IssueSkus(r) == OversizedSkus(frame.rows, carriers)
  {
    if carriers != [] && {Sku, Length, Width, Height} <= frame.columns then RotationScan(frame.rows, carriers, {})
    else []
  }

  /** `_validate_outliers`: static ranges first, then the rotation check. */
  function OutlierIssues(v: Validator, frame: MdFrame): (r: seq<Issue>)
    ensures !v.outlierValidation ==> r == []
    ensures forall x | x in r :: x.issueType == Outlier && x.severity == Warning
    ensures forall x | x in r :: StaticOutlierOf(v.thresholds, frame, x) || x == RotationIssue(x.sku)
    ensures v.outlierValidation ==> forall k | 0 <= k < |v.thresholds| && v.thresholds[k].0 in frame.columns ::
      CoversCells(r, frame.rows, v.thresholds[k].0, OutsideBounds(v.thresholds[k].1), Outlier, Warning)
    ensures v.outlierValidation && v.carriers != [] && {Sku, Length, Width, Height} <= frame.columns ==>
      forall j | 0 <= j < |frame.rows| && Oversized(frame.rows[j], v.carriers) :: RotationIssue(SkuText(frame.rows[j].sku)) in r
  {
    if !v.outlierValidation then []
    else
      var st := StaticOutliers(v.thresholds, frame);
      var rot := RotationIssues(v.carriers, frame);
      assert forall x | x in st :: x.issueType == Outlier && x.severity == Warning;
      assert forall x | x in rot :: x.issueType == Outlier && x.severity == Warning && x == RotationIssue(x.sku);
      forall k | 0 <= k < |v.thresholds| && v.thresholds[k].0 in frame.columns
        ensures CoversCells(st + rot, frame.rows, v.thresholds[k].0, OutsideBounds(v.thresholds[k].1), Outlier, Warning)
      {
        CoversCellsWithin(st, st + rot, frame.rows, v.thresholds[k].0, OutsideBounds(v.thresholds[k].1), Outlier, Warning);
      }
      if v.carriers != [] && {Sku, Length, Width, Height} <= frame.columns then
        RotationCovers(v.carriers, frame);
        st + rot
      else
        st + rot
  }

  /** Every oversized row's SKU is reported by the rotation check. */
  lemma RotationCovers(carriers: seq<Types.CarrierConfig>, frame: MdFrame)
    requires carriers != [] && {Sku, Length, Width, Height} <= frame.columns
    ensures forall j | 0 <= j < |frame.rows| && Oversized(frame.rows[j], carriers) ::
      RotationIssue(SkuText(frame.rows[j].sku)) in RotationIssues(carriers, frame)
  {
    var r := RotationIssues(carriers, frame);
    forall j | 0 <= j < |frame.rows| && Oversized(frame.rows[j], carriers)
      ensures RotationIssue(SkuText(frame.rows[j].sku)) in r
    {
      var sku := SkuText(frame.rows[j].sku);
      assert sku in OversizedSkus(frame.rows, carriers);
      assert sku in IssueSkus(r);
      var i :| 0 <= i < |r| && r[i].sku == sku;
    }
  }

  // ---------------------------------------------------------------------
  // Marking problem values as missing
  // ---------------------------------------------------------------------

  /** Whether `_mark_as_missing` nulls cell `x` of column `f`. */
  predicate Nulled(v: Validator, columns: set<Field>, f: Field, x: Option<real>)
  {
    f in columns &&
    ((f in {Length, Width, Height} && v.zeroAsMissingDimensions && Le(x, 0.0)) ||
     (f == Weight && v.zeroAsMissingWeight && Le(x, 0.0)) ||
     (f == Stock && v.negativeAsMissing && Lt(x, 0.0)))
  }

  function Clear(v: Validator, columns: set<Field>, f: Field, x: Option<real>): Option<real>
  {
    if Nulled(v, columns, f, x) then None else x
  }

  function MarkRow(v: Validator, columns: set<Field>, row: MdRow): (s: MdRow)
    ensures s.sku == row.sku
    ensures forall f :: FlagOf(s, f) == FlagOf(row, f)
    ensures forall f :: Num(s, f) == (if Nulled(v, columns, f, Num(row, f)) then None else Num(row, f))
  {
    row.(length := Clear(v, columns, Length, row.length),
         width := Clear(v, columns, Width, row.width),
         height := Clear(v, columns, Height, row.height),
         weight := Clear(v, columns, Weight, row.weight),
         stock := Clear(v, columns, Stock, row.stock))
  }

  /** `_mark_as_missing`: the same columns and rows, with the problem cells
      nulled. */
  function MarkAsMissing(v: Validator, frame: MdFrame): (r: MdFrame)
    ensures r.columns == frame.columns && r.flagColumns == frame.flagColumns
    ensures |r.rows| == |frame.rows|
    ensures forall i :: 0 <= i < |r.rows| ==> r.rows[i] == MarkRow(v, frame.columns, frame.rows[i])
  {
    frame.(rows := seq(|frame.rows|, i requires 0 <= i < |frame.rows| => MarkRow(v, frame.columns, frame.rows[i])))
  }

  /** After marking, no dimension or weight cell under its flag is ≤ 0 and no
      stock cell under the negative flag is < 0; every cell that changed was
      one of those and became null. */
  lemma MarkAsMissingCleans(v: Validator, frame: MdFrame, i: nat, f: Field)
    requires i < |frame.rows| && f in frame.columns
    ensures var c := Num(MarkAsMissing(v, frame).rows[i], f);
      !Nulled(v, frame.columns, f, c) &&
      (c != Num(frame.rows[i], f) ==> c.None? && Nulled(v, frame.columns, f, Num(frame.rows[i], f)))
  {
  }

  /** Marking twice is marking once. */
  lemma MarkAsMissingIdempotent(v: Validator, frame: MdFrame)
    ensures MarkAsMissing(v, MarkAsMissing(v, frame)) == MarkAsMissing(v, frame)
  {
    var once := MarkAsMissing(v, frame);
    var twice := MarkAsMissing(v, once);
    forall i | 0 <= i < |twice.rows|
      ensures twice.rows[i] == once.rows[i]
    {
      var a := once.rows[i];
      var b := twice.rows[i];
      assert Num(b, Length) == Num(a, Length);
      assert Num(b, Width) == Num(a, Width);
      assert Num(b, Height) == Num(a, Height);
      assert Num(b, Weight) == Num(a, Weight);
      assert Num(b, Stock) == Num(a, Stock);
      assert FlagOf(b, Length) == FlagOf(a, Length);
      assert FlagOf(b, Width) == FlagOf(a, Width);
      assert FlagOf(b, Height) == FlagOf(a, Height);
      assert FlagOf(b, Weight) == FlagOf(a, Weight);
      assert FlagOf(b, Stock) == FlagOf(a, Stock);
    }
  }

  // ---------------------------------------------------------------------
  // validate()
  // ---------------------------------------------------------------------

  datatype ValidationResult = ValidationResult(
    isValid: bool,
    issues: seq<Issue>,
    validated: MdFrame,
    totalRecords: nat,
    validRecords: int,
    criticalIssues: nat,
    warningIssues: nat)

  predicate IsCritical(x: Issue) { x.severity == Critical }
  predicate IsWarning(x: Issue) { x.severity == Warning }

  /** All issues in the order `validate` collects them. */
  function AllIssues(v: Validator, frame: MdFrame): seq<Issue>
  {
    MissingIssues(frame) + ZeroIssues(v, frame) + NegativeIssues(v, frame) + OutlierIssues(v, frame)
  }

  function CriticalSkus(issues: seq<Issue>): set<string>
  {
    set i | 0 <= i < |issues| && IsCritical(issues[i]) :: issues[i].sku
  }

  /** Some check selects the SKU column of a frame that lacks it, which
      raises: the missing check does for any measurement column, and the
      zero, negative and outlier checks can for the stock column. */
  predicate SelectsMissingSku(v: Validator, frame: MdFrame)
  {
    Sku !in frame.columns &&
    ((exists f :: f in frame.columns && f in {Length, Width, Height, Weight}) ||
     (Stock in frame.columns && (v.zeroAsMissingQuantities || v.negativeAsMissing || v.outlierValidation)))
  }

  /** `validate`. */
  function Validate(v: Validator, frame: MdFrame): (r: Result<ValidationResult>)
    ensures r.Err? <==> SelectsMissingSku(v, frame)
    ensures r.Ok? ==> r.value.issues == AllIssues(v, frame) && r.value.validated == MarkAsMissing(v, frame)
    ensures r.Ok? ==> r.value.totalRecords == |frame.rows|
    ensures r.Ok? ==> (r.value.isValid <==> forall x | x in r.value.issues :: x.severity != Critical)
    ensures r.Ok? ==> r.value.validRecords == |frame.rows| - |CriticalSkus(r.value.issues)|
  {
    if SelectsMissingSku(v, frame) then Err("column sku not found")
    else
      var issues := AllIssues(v, frame);
      var critical := Seqs.Count(issues, IsCritical);
      Ok(ValidationResult(critical == 0, issues, MarkAsMissing(v, frame), |frame.rows|,
        |frame.rows| - |CriticalSkus(issues)|, critical, Seqs.Count(issues, IsWarning)))
  }


  /** The issues after the SKU part. */
  function OtherIssues(v: Validator, frame: MdFrame): (r: seq<Issue>)
    ensures forall x | x in r :: !IsCritical(x)
  {
    var fieldPart := FieldPart(frame);
    var zero := ZeroIssues(v, frame);
    var neg := NegativeIssues(v, frame);
    var out := OutlierIssues(v, frame);
    assert forall x | x in fieldPart :: !IsCritical(x);
    assert forall x | x in zero :: ZeroAllowed(v, x);
    assert forall x | x in neg :: !IsCritical(x);
    fieldPart + zero + neg + out
  }

  lemma AllIssuesSplit(v: Validator, frame: MdFrame)
    ensures AllIssues(v, frame) == SkuPart(frame) + OtherIssues(v, frame)
  {
    var a := SkuPart(frame);
    var b := FieldPart(frame);
    var c := ZeroIssues(v, frame);
    var d := NegativeIssues(v, frame);
    var e := OutlierIssues(v, frame);
    assert MissingIssues(frame) == a + b;
    assert OtherIssues(v, frame) == b + c + d + e;
    Regroup(a, b, c, d, e);
  }

  lemma Regroup<T>(a: seq<T>, b: seq<T>, c: seq<T>, d: seq<T>, e: seq<T>)
    ensures (a + b) + c + d + e == a + (b + c + d + e)
  {
  }

  /** The critical issues are exactly the SKU part. */
  lemma CriticalCount(v: Validator, frame: MdFrame)
    ensures Seqs.Count(AllIssues(v, frame), IsCritical) == |SkuPart(frame)|
  {
    var rest := OtherIssues(v, frame);
    AllIssuesSplit(v, frame);
    assert Seqs.Count(rest, IsCritical) == 0 by {
      assert forall i :: 0 <= i < |rest| ==> rest[i] in rest;
    }
    Seqs.CountAll(SkuPart(frame), IsCritical);
    Seqs.CountConcat(SkuPart(frame), rest, IsCritical);
  }

  lemma CriticalSkusOf(v: Validator, frame: MdFrame)
    ensures CriticalSkus(AllIssues(v, frame)) == (if |SkuPart(frame)| > 0 then {"None"} else {})
  {
    AllIssuesSplit(v, frame);
    CriticalOfSplit(SkuPart(frame), OtherIssues(v, frame));
  }

  lemma CriticalOfSplit(sp: seq<Issue>, rest: seq<Issue>)
    requires forall i :: 0 <= i < |sp| ==> sp[i] == Issue("None", "sku", MissingValue, Critical, None)
    requires forall x | x in rest :: !IsCritical(x)
    ensures CriticalSkus(sp + rest) == (if |sp| > 0 then {"None"} else {})
  {
    var issues := sp + rest;
    forall x | x in CriticalSkus(issues) ensures x == "None" {
      var i :| 0 <= i < |issues| && IsCritical(issues[i]) && issues[i].sku == x;
    }
    if |sp| > 0 {
      assert issues[0] == sp[0];
    }
  }

  /** Only a null SKU is critical: the critical count is the number of null
      SKU cells, the result is valid iff there is none, and — since every
      null SKU prints as the same text — valid_records is the total less at
      most one. */
  lemma ValidateSummary(v: Validator, frame: MdFrame)
    requires Validate(v, frame).Ok?
    ensures var res := Validate(v, frame).value;
      var nullSkus := Sku in frame.columns && exists i :: 0 <= i < |frame.rows| && frame.rows[i].sku.None?;
      res.criticalIssues == (if Sku in frame.columns then Seqs.Count(frame.rows, NullSku) else 0) &&
      (res.isValid <==> !nullSkus) &&
      res.validRecords == |frame.rows| - (if nullSkus then 1 else 0)
  {
    CriticalCount(v, frame);
    CriticalSkusOf(v, frame);
    var nullSkus := Sku in frame.columns && exists i :: 0 <= i < |frame.rows| && frame.rows[i].sku.None?;
    assert |SkuPart(frame)| == 0 <==> !nullSkus by {
      if Sku in frame.columns {
        assert Seqs.Count(frame.rows, NullSku) == 0 <==> forall i :: 0 <= i < |frame.rows| ==> !NullSku(frame.rows[i]);
      }
    }
  }
}
