/** Lists of problem SKUs for the data-quality report
    (src/quality/dq_lists.py). */
module DqLists {
  import opened Wrappers
  import opened Frame
  import Config
  import Seqs
  import DqMetrics

  /** The text of `details`, reduced to what it distinguishes. */
  datatype Detail = NoDetail | TooSmall | TooLarge | MarginMm(margin: real)

  /** `value`: a cell, an occurrence count, or a list of distinct values. */
  datatype ItemValue = Cell(cell: Option<real>) | Times(n: nat) | Values(vs: seq<real>)

  datatype DqItem = DqItem(sku: string, issueType: string, field: string, value: ItemValue, detail: Detail)

  datatype DqLists = DqLists(
    missingCritical: seq<DqItem>,
    suspectOutliers: seq<DqItem>,
    highRiskBorderline: seq<DqItem>,
    duplicates: seq<DqItem>,
    conflicts: seq<DqItem>,
    collisions: seq<DqItem>)

  /** `total_issues`. */
  function TotalIssues(l: DqLists): (n: nat)
    ensures n == 0 <==> (l.missingCritical == [] && l.suspectOutliers == [] && l.highRiskBorderline == []
      && l.duplicates == [] && l.conflicts == [] && l.collisions == [])
    ensures n >= |l.missingCritical| && n >= |l.suspectOutliers| && n >= |l.highRiskBorderline|
    ensures n >= |l.duplicates| && n >= |l.conflicts| && n >= |l.collisions|
  {
    |l.missingCritical| + |l.suspectOutliers| + |l.highRiskBorderline| + |l.duplicates| + |l.conflicts| + |l.collisions|
  }

  // ---------------------------------------------------------------------
  // Per-cell lists
  // ---------------------------------------------------------------------

  function ItemOf(row: MdRow, f: Field, kind: string, det: Option<real> -> Detail): DqItem
  {
    DqItem(SkuText(row.sku), kind, ColumnName(f), Cell(Num(row, f)), det(Num(row, f)))
  }

  function MapItems(rows: seq<MdRow>, f: Field, kind: string, det: Option<real> -> Detail): (r: seq<DqItem>)
    ensures |r| == |rows|
    ensures forall i :: 0 <= i < |rows| ==> r[i] == ItemOf(rows[i], f, kind, det)
  {
    if |rows| == 0 then [] else [ItemOf(rows[0], f, kind, det)] + MapItems(rows[1..], f, kind, det)
  }

  /** One item per row whose `f` cell satisfies `p`, in row order. */
  function CellItems(rows: seq<MdRow>, f: Field, p: Option<real> -> bool, kind: string, det: Option<real> -> Detail): (r: seq<DqItem>)
    ensures |r| == Seqs.Count(rows, At(f, p))
    ensures forall x | x in r :: Shaped(x, kind, f, p, det)
    ensures forall x | x in r :: exists row | row in rows :: p(Num(row, f)) && x == ItemOf(row, f, kind, det)
    ensures forall row | row in rows && p(Num(row, f)) :: ItemOf(row, f, kind, det) in r
  {
    var kept := Seqs.Filter(rows, At(f, p));
    var r := MapItems(kept, f, kind, det);
    forall x | x in r
      ensures exists row | row in rows :: p(Num(row, f)) && x == ItemOf(row, f, kind, det)
    {
      var i :| 0 <= i < |r| && r[i] == x;
      assert kept[i] in kept;
      assert At(f, p)(kept[i]);
    }
    forall row | row in rows && p(Num(row, f))
      ensures ItemOf(row, f, kind, det) in r
    {
      assert At(f, p)(row);
      assert row in kept;
      var i :| 0 <= i < |kept| && kept[i] == row;
      assert r[i] == ItemOf(row, f, kind, det);
    }
    r
  }

  /** An item of kind `kind` about a cell of `f` that satisfies `p`. */
  predicate Shaped(x: DqItem, kind: string, f: Field, p: Option<real> -> bool, det: Option<real> -> Detail)
  {
    x.issueType == kind && x.field == ColumnName(f) && x.value.Cell? && p(x.value.cell) && x.detail == det(x.value.cell)
  }

  function FieldItems(frame: MdFrame, f: Field, p: Option<real> -> bool, kind: string, det: Option<real> -> Detail): (r: seq<DqItem>)
    ensures f !in frame.columns ==> r == []
    ensures f in frame.columns ==> |r| == Seqs.Count(frame.rows, At(f, p))
    ensures forall x | x in r :: Shaped(x, kind, f, p, det)
    ensures f in frame.columns ==> forall row | row in frame.rows && p(Num(row, f)) :: ItemOf(row, f, kind, det) in r
  {
    if f in frame.columns then CellItems(frame.rows, f, p, kind, det) else []
  }

  function NoDetailOf(v: Option<real>): Detail { NoDetail }

  /** `is_null() | (col <= 0)`. */
  predicate MissingOrNonPositive(v: Option<real>) { v.None? || v.value <= 0.0 }

  /** A missing-critical item: a null or non-positive measurement. */
  predicate MissingItem(x: DqItem)
  {
    x.issueType == "missing_critical" && x.value.Cell? && MissingOrNonPositive(x.value.cell) &&
    x.field in {"length_mm", "width_mm", "height_mm", "weight_kg"}
  }

  function MissingItems(frame: MdFrame, f: Field): (r: seq<DqItem>)
    requires f in {Length, Width, Height, Weight}
    ensures forall x | x in r :: MissingItem(x)
    ensures |r| == MissingCount(frame, f)
    ensures f in frame.columns ==> forall row | row in frame.rows && MissingOrNonPositive(Num(row, f)) ::
      ItemOf(row, f, "missing_critical", NoDetailOf) in r
  {
    FieldItems(frame, f, MissingOrNonPositive, "missing_critical", NoDetailOf)
  }

  /** The number of null or non-positive cells of a present column. */
  function MissingCount(frame: MdFrame, f: Field): nat
  {
    if f in frame.columns then Seqs.Count(frame.rows, At(f, MissingOrNonPositive)) else 0
  }

  /** `_find_missing_critical`: the four measurement columns in order, one
      item per null or non-positive cell. */
  function MissingCritical(frame: MdFrame): (r: seq<DqItem>)
    ensures forall x | x in r :: MissingItem(x)
    ensures |r| == MissingCount(frame, Length) + MissingCount(frame, Width) + MissingCount(frame, Height) + MissingCount(frame, Weight)
  {
    var l := MissingItems(frame, Length);
    var w := MissingItems(frame, Width);
    var h := MissingItems(frame, Height);
    var g := MissingItems(frame, Weight);
    l + w + h + g
  }

  /** Every null or non-positive measurement cell has its item. */
  lemma MissingCriticalComplete(frame: MdFrame, row: MdRow, f: Field)
    requires f in {Length, Width, Height, Weight} && f in frame.columns
    requires row in frame.rows && MissingOrNonPositive(Num(row, f))
    ensures ItemOf(row, f, "missing_critical", NoDetailOf) in MissingCritical(frame)
  {
    var x := ItemOf(row, f, "missing_critical", NoDetailOf);
    var l := MissingItems(frame, Length);
    var w := MissingItems(frame, Width);
    var h := MissingItems(frame, Height);
    var g := MissingItems(frame, Weight);
    assert MissingCritical(frame) == l + w + h + g;
    assert x in MissingItems(frame, f);
  }

  datatype LowHigh = LowHigh(low: real, high: real)

  /** `OUTLIER_THRESHOLDS` of the list builder. */
  function SuspectBounds(f: Field): LowHigh
  {
    match f
    case Length => LowHigh(10.0, 2000.0)
    case Width => LowHigh(10.0, 2000.0)
    case Height => LowHigh(5.0, 1500.0)
    case _ => LowHigh(0.01, 200.0)
  }

  /** Positive and strictly outside `[low, high]`. */
  function Suspect(b: LowHigh): Option<real> -> bool
  {
    (v: Option<real>) => v.Some? && v.value > 0.0 && (v.value < b.low || v.value > b.high)
  }

  /** "very small" below `low`, "very large" otherwise. */
  function SizeDetail(b: LowHigh): Option<real> -> Detail
  {
    (v: Option<real>) => if v.Some? && v.value < b.low then TooSmall else TooLarge
  }

  /** A suspect-outlier item about column `f`. */
  predicate SuspectItem(x: DqItem, f: Field)
  {
    x.issueType == "suspect_outlier" && x.field == ColumnName(f) && x.value.Cell? &&
    Suspect(SuspectBounds(f))(x.value.cell) &&
    (x.detail == TooSmall <==> x.value.cell.value < SuspectBounds(f).low)
  }

  function SuspectItems(frame: MdFrame, f: Field): (r: seq<DqItem>)
    ensures forall x | x in r :: SuspectItem(x, f)
    ensures f in frame.columns ==> forall row | row in frame.rows && Suspect(SuspectBounds(f))(Num(row, f)) ::
      ItemOf(row, f, "suspect_outlier", SizeDetail(SuspectBounds(f))) in r
  {
    FieldItems(frame, f, Suspect(SuspectBounds(f)), "suspect_outlier", SizeDetail(SuspectBounds(f)))
  }

  /** `_find_suspect_outliers`. */
  function SuspectOutliers(frame: MdFrame): (r: seq<DqItem>)
    ensures forall x | x in r :: SuspectItem(x, Length) || SuspectItem(x, Width) || SuspectItem(x, Height) || SuspectItem(x, Weight)
  {
    var l := SuspectItems(frame, Length);
    var w := SuspectItems(frame, Width);
    var h := SuspectItems(frame, Height);
    var g := SuspectItems(frame, Weight);
    l + w + h + g
  }

  /** `(limit - threshold, limit]`. */
  function InBand(lower: real, limit: real): Option<real> -> bool
  {
    (v: Option<real>) => v.Some? && v.value > lower && v.value <= limit
  }

  function MarginTo(limit: real): Option<real> -> Detail
  {
    (v: Option<real>) => MarginMm(if v.Some? then limit - v.value else 0.0)
  }

  /** The default limits of a typical carrier, in dict order. */
  const DefaultLimits: seq<(string, real)> := [("length_mm", 600.0), ("width_mm", 400.0), ("height_mm", 350.0)]

  /** The numeric column a limit key names, if the frame has it. */
  function LimitColumn(frame: MdFrame, name: string): (f: Option<Field>)
    ensures f.Some? ==> f.value != Sku && f.value in frame.columns && ColumnName(f.value) == name
  {
    var g := FieldNamed(name);
    if g.Some? && g.value != Sku && g.value in frame.columns then g else None
  }

  /** A borderline item for the limit entry `e`. */
  predicate BorderlineItem(x: DqItem, e: (string, real), threshold: real)
  {
    x.issueType == "high_risk_borderline" && x.value.Cell? && x.field == e.0 &&
    InBand(e.1 - threshold, e.1)(x.value.cell) && x.detail == MarginMm(e.1 - x.value.cell.value)
  }

  /** Every in-band cell of the column the limit entry names (when the
      frame has it) has its item in `r`. */
  predicate CoversLimit(r: seq<DqItem>, frame: MdFrame, e: (string, real), threshold: real)
  {
    var f := LimitColumn(frame, e.0);
    f.Some? ==> forall row | row in frame.rows && InBand(e.1 - threshold, e.1)(Num(row, f.value)) ::
      ItemOf(row, f.value, "high_risk_borderline", MarginTo(e.1)) in r
  }

  lemma CoversLimitWithin(r: seq<DqItem>, r': seq<DqItem>, frame: MdFrame, e: (string, real), threshold: real)
    requires CoversLimit(r, frame, e, threshold) && forall x | x in r :: x in r'
    ensures CoversLimit(r', frame, e, threshold)
  {
  }

  /** The borderline items of one limit entry. */
  function LimitItems(frame: MdFrame, e: (string, real), threshold: real): (r: seq<DqItem>)
    ensures forall x | x in r :: BorderlineItem(x, e, threshold)
    ensures CoversLimit(r, frame, e, threshold)
  {
    var f := LimitColumn(frame, e.0);
    if f.None? then []
    else
      var r := CellItems(frame.rows, f.value, InBand(e.1 - threshold, e.1), "high_risk_borderline", MarginTo(e.1));
      forall x | x in r
        ensures BorderlineItem(x, e, threshold)
      {
        ShapedBorderline(x, f.value, e, threshold);
      }
      r
  }

  lemma ShapedBorderline(x: DqItem, f: Field, e: (string, real), threshold: real)
    requires ColumnName(f) == e.0
    requires Shaped(x, "high_risk_borderline", f, InBand(e.1 - threshold, e.1), MarginTo(e.1))
    ensures BorderlineItem(x, e, threshold)
  {
    var v := x.value.cell;
    assert InBand(e.1 - threshold, e.1)(v);
    assert v.Some?;
    assert MarginTo(e.1)(v) == MarginMm(e.1 - v.value);
  }

  function BorderlineFor(frame: MdFrame, limits: seq<(string, real)>, threshold: real): (r: seq<DqItem>)
    ensures forall x | x in r :: exists k :: 0 <= k < |limits| && BorderlineItem(x, limits[k], threshold)
    ensures forall k | 0 <= k < |limits| :: CoversLimit(r, frame, limits[k], threshold)
  {
    if |limits| == 0 then []
    else
      var here := LimitItems(frame, limits[0], threshold);
      var rest := BorderlineFor(frame, limits[1..], threshold);
      forall x | x in rest
        ensures exists k :: 0 <= k < |limits| && BorderlineItem(x, limits[k], threshold)
      {
        var k :| 0 <= k < |limits[1..]| && BorderlineItem(x, limits[1..][k], threshold);
        assert limits[k + 1] == limits[1..][k];
      }
      assert forall x | x in here :: BorderlineItem(x, limits[0], threshold);
      forall k | 0 <= k < |limits|
        ensures CoversLimit(here + rest, frame, limits[k], threshold)
      {
        if k == 0 {
          CoversLimitWithin(here, here + rest, frame, limits[0], threshold);
        } else {
          assert limits[1..][k - 1] == limits[k];
          CoversLimitWithin(rest, here + rest, frame, limits[k], threshold);
        }
      }
      here + rest
  }

  /** `_find_high_risk_borderline`: the given limits, or the defaults when
      none are given; keys that are not numeric columns of the frame are
      skipped. */
  function HighRiskBorderline(frame: MdFrame, limits: Option<seq<(string, real)>>, threshold: real): (r: seq<DqItem>)
    ensures limits.None? ==> forall x | x in r :: x.field in {"length_mm", "width_mm", "height_mm"}
    ensures forall x | x in r ::
      exists k :: 0 <= k < |limits.GetOr(DefaultLimits)| && BorderlineItem(x, limits.GetOr(DefaultLimits)[k], threshold)
    ensures forall k | 0 <= k < |limits.GetOr(DefaultLimits)| :: CoversLimit(r, frame, limits.GetOr(DefaultLimits)[k], threshold)
  {
    BorderlineFor(frame, limits.GetOr(DefaultLimits), threshold)
  }

  // ---------------------------------------------------------------------
  // Duplicates and conflicts
  // ---------------------------------------------------------------------

  function DuplicateItem(rows: seq<MdRow>, c: Option<string>): DqItem
  {
    DqItem(SkuText(c), "duplicate", "sku", Times(Seqs.Occurrences(SkuCells(rows), c)), NoDetail)
  }

  function DuplicateItems(rows: seq<MdRow>, d: seq<Option<string>>): (r: seq<DqItem>)
    requires forall c | c in d :: Seqs.Occurrences(SkuCells(rows), c) > 1
    ensures |r| == |d|
    ensures forall x | x in r :: x.issueType == "duplicate" && x.field == "sku" && x.value.Times? && x.value.n > 1
    ensures forall c | c in d :: DuplicateItem(rows, c) in r
  {
    if |d| == 0 then []
    else [DuplicateItem(rows, d[0])] + DuplicateItems(rows, d[1..])
  }

  /** `_find_duplicates`: one item per repeated SKU value, carrying its count;
      nothing without a SKU column. */
  function Duplicates(frame: MdFrame): (r: seq<DqItem>)
    ensures Sku !in frame.columns ==> r == []
    ensures Sku in frame.columns ==> |r| == |DuplicatedSkus(frame.rows)|
    ensures forall x | x in r :: x.issueType == "duplicate" && x.field == "sku" && x.value.Times? && x.value.n > 1
    ensures Sku in frame.columns ==> forall c | Seqs.Occurrences(SkuCells(frame.rows), c) > 1 :: DuplicateItem(frame.rows, c) in r
  {
    if Sku !in frame.columns then []
    else
      DuplicateItems(frame.rows, DuplicatedSkus(frame.rows))
  }

  /** The rows carrying SKU `c`; a null SKU matches none, since `== None`
      is null and the filter drops it. */
  function RowsOf(rows: seq<MdRow>, c: Option<string>): (r: seq<MdRow>)
    ensures c.None? ==> r == []
    ensures forall row | row in r :: row in rows && row.sku == c
    ensures c.Some? ==> forall row | row in rows && row.sku == c :: row in r
  {
    if c.None? then [] else Seqs.Filter(rows, (row: MdRow) => row.sku == c)
  }

  /** The non-null values of column `f`, in row order. */
  function NonNullValues(rows: seq<MdRow>, f: Field): (vs: seq<real>)
    ensures forall v | v in vs :: exists row | row in rows :: Num(row, f) == Some(v)
    ensures forall row | row in rows && Num(row, f).Some? :: Num(row, f).value in vs
  {
    if |rows| == 0 then []
    else
      var rest := NonNullValues(rows[1..], f);
      assert forall row | row in rows[1..] :: row in rows;
      (if Num(rows[0], f).Some? then [Num(rows[0], f).value] else []) + rest
  }

  /** A conflict item for SKU `c` and column `f`: at least two distinct
      non-null values, each the value of a row of that SKU. */
  predicate ConflictOf(rows: seq<MdRow>, c: Option<string>, f: Field, x: DqItem)
  {
    c.Some? && x.sku == c.value && x.issueType == "conflict" && x.field == ColumnName(f) &&
    x.value.Values? && |x.value.vs| > 1 && Seqs.NoDup(x.value.vs) &&
    forall v | v in x.value.vs :: exists row | row in rows :: row.sku == c && Num(row, f) == Some(v)
  }

  /** Two rows of SKU `c` hold different non-null values in column `f`. */
  predicate Disagree(rows: seq<MdRow>, c: Option<string>, f: Field)
  {
    exists i, j | 0 <= i < |rows| && 0 <= j < |rows| ::
      rows[i].sku == c && rows[j].sku == c && Num(rows[i], f).Some? && Num(rows[j], f).Some? &&
      Num(rows[i], f) != Num(rows[j], f)
  }

  /** The distinct non-null values of column `f` among the rows of SKU `c`. */
  function ValuesOf(rows: seq<MdRow>, c: Option<string>, f: Field): seq<real>
  {
    Seqs.Distinct(NonNullValues(RowsOf(rows, c), f))
  }

  /** The conflict item `_find_conflicts` appends for SKU `c` and column `f`. */
  function ConflictItem(rows: seq<MdRow>, c: Option<string>, f: Field): DqItem
  {
    DqItem(SkuText(c), "conflict", ColumnName(f), Values(ValuesOf(rows, c, f)), NoDetail)
  }

  /** Two different members of `s` leave two entries after deduplication. */
  lemma DistinctKeepsTwo(s: seq<real>, a: real, b: real)
    requires a in s && b in s && a != b
    ensures |Seqs.Distinct(s)| > 1
  {
    var r := Seqs.Distinct(s);
    var ia :| 0 <= ia < |s| && s[ia] == a;
    var ib :| 0 <= ib < |s| && s[ib] == b;
    assert a in r && b in r;
  }

  /** Rows of a non-null SKU that disagree give at least two distinct values. */
  lemma DisagreeValues(rows: seq<MdRow>, c: Option<string>, f: Field)
    requires c.Some? && Disagree(rows, c, f)
    ensures |ValuesOf(rows, c, f)| > 1
  {
    var i, j :| 0 <= i < |rows| && 0 <= j < |rows| &&
      rows[i].sku == c && rows[j].sku == c && Num(rows[i], f).Some? && Num(rows[j], f).Some? &&
      Num(rows[i], f) != Num(rows[j], f);
    var own := RowsOf(rows, c);
    assert rows[i] in rows && rows[j] in rows;
    assert rows[i] in own && rows[j] in own;
    DistinctKeepsTwo(NonNullValues(own, f), Num(rows[i], f).value, Num(rows[j], f).value);
  }

  /** The conflict item of the head column, when the SKU's rows disagree. */
  function ConflictHere(rows: seq<MdRow>, c: Option<string>, f: Field): (r: seq<DqItem>)
    requires c.Some?
    ensures forall x | x in r :: ConflictOf(rows, c, f, x)
    ensures Disagree(rows, c, f) ==> ConflictItem(rows, c, f) in r
  {
    var own := RowsOf(rows, c);
    var vs := ValuesOf(rows, c, f);
    assert Disagree(rows, c, f) ==> |vs| > 1 by {
      if Disagree(rows, c, f) {
        DisagreeValues(rows, c, f);
      }
    }
    if |vs| > 1 then
      var x := ConflictItem(rows, c, f);
      assert ConflictOf(rows, c, f, x) by {
        forall v | v in vs ensures exists row | row in rows :: row.sku == c && Num(row, f) == Some(v) {
          var i :| 0 <= i < |vs| && vs[i] == v;
          assert v in NonNullValues(own, f);
          var row :| row in own && Num(row, f) == Some(v);
        }
      }
      [x]
    else []
  }

  function ConflictsFor(rows: seq<MdRow>, c: Option<string>, fs: seq<Field>): (r: seq<DqItem>)
    ensures c.None? ==> r == []
    ensures forall x | x in r :: exists f | f in fs :: ConflictOf(rows, c, f, x)
    ensures c.Some? ==> forall f | f in fs && Disagree(rows, c, f) :: ConflictItem(rows, c, f) in r
  {
    if |fs| == 0 || c.None? then []
    else
      var here := ConflictHere(rows, c, fs[0]);
      var rest := ConflictsFor(rows, c, fs[1..]);
      assert forall x | x in rest :: exists f | f in fs :: ConflictOf(rows, c, f, x) by {
        forall x | x in rest ensures exists f | f in fs :: ConflictOf(rows, c, f, x) {
          var f :| f in fs[1..] && ConflictOf(rows, c, f, x);
        }
      }
      assert forall f | f in fs && f != fs[0] :: f in fs[1..];
      here + rest
  }

  function ConflictsOver(rows: seq<MdRow>, cs: seq<Option<string>>, fs: seq<Field>): (r: seq<DqItem>)
    ensures forall x | x in r :: exists c, f | c in cs && f in fs :: ConflictOf(rows, c, f, x)
    ensures forall c, f | c in cs && c.Some? && f in fs && Disagree(rows, c, f) :: ConflictItem(rows, c, f) in r
  {
    if |cs| == 0 then []
    else
      var here := ConflictsFor(rows, cs[0], fs);
      var rest := ConflictsOver(rows, cs[1..], fs);
      forall x | x in rest ensures exists c, f | c in cs && f in fs :: ConflictOf(rows, c, f, x) {
        var c, f :| c in cs[1..] && f in fs && ConflictOf(rows, c, f, x);
      }
      forall x | x in here ensures exists c, f | c in cs && f in fs :: ConflictOf(rows, c, f, x) {
        var f :| f in fs && ConflictOf(rows, cs[0], f, x);
      }
      assert forall c | c in cs && c != cs[0] :: c in cs[1..];
      here + rest
  }

  /** `_find_conflicts`: for each repeated non-null SKU and each present
      measurement column, an item when the SKU's rows disagree. */
  function Conflicts(frame: MdFrame): (r: seq<DqItem>)
    ensures Sku !in frame.columns ==> r == []
    ensures forall x | x in r :: exists c, f | c in DuplicatedSkus(frame.rows) && f in DqMetrics.AvailableFields(frame) ::
      ConflictOf(frame.rows, c, f, x)
    ensures Sku in frame.columns ==>
      forall c, f | c in DuplicatedSkus(frame.rows) && c.Some? && f in DqMetrics.AvailableFields(frame) && Disagree(frame.rows, c, f) ::
        ConflictItem(frame.rows, c, f) in r
  {
    if Sku !in frame.columns then []
    else ConflictsOver(frame.rows, DuplicatedSkus(frame.rows), DqMetrics.AvailableFields(frame))
  }

  /** Rows of one SKU that agree on a column give no conflict for it. */
  lemma AgreeingRowsNoConflict(rows: seq<MdRow>, c: Option<string>, f: Field, x: DqItem, v: real)
    requires forall row | row in rows && row.sku == c :: Num(row, f).None? || Num(row, f) == Some(v)
    ensures !ConflictOf(rows, c, f, x)
  {
    if x.value.Values? {
      var vs := x.value.vs;
      if forall w | w in vs :: exists row | row in rows :: row.sku == c && Num(row, f) == Some(w) {
        forall w | w in vs
          ensures w == v
        {
          var row :| row in rows && row.sku == c && Num(row, f) == Some(w);
        }
        SingleValued(vs, v);
      }
    }
  }

  lemma SingleValued(vs: seq<real>, v: real)
    requires forall w | w in vs :: w == v
    ensures Seqs.NoDup(vs) ==> |vs| <= 1
  {
    if |vs| > 1 {
      assert vs[0] in vs && vs[1] in vs;
      assert vs[0] == vs[1];
    }
  }

  // ---------------------------------------------------------------------
  // build_all_lists()
  // ---------------------------------------------------------------------

  /** Building fails when an item needs the absent SKU column, or when a
      limit compares the text SKU column with a number. */
  predicate BuildFails(frame: MdFrame, limits: Option<seq<(string, real)>>, threshold: real)
  {
    (Sku !in frame.columns &&
      (MissingCritical(frame) != [] || SuspectOutliers(frame) != [] || HighRiskBorderline(frame, limits, threshold) != [])) ||
    (Sku in frame.columns && exists k :: 0 <= k < |limits.GetOr(DefaultLimits)| && limits.GetOr(DefaultLimits)[k].0 == "sku")
  }

  /** `build_all_lists`; collisions are always empty. */
  function BuildAllLists(frame: MdFrame, limits: Option<seq<(string, real)>>, threshold: real): (r: Result<DqLists>)
    ensures r.Err? <==> BuildFails(frame, limits, threshold)
    ensures r.Ok? ==> r.value.collisions == []
    ensures r.Ok? ==> r.value.missingCritical == MissingCritical(frame) && r.value.suspectOutliers == SuspectOutliers(frame)
    ensures r.Ok? ==> r.value.highRiskBorderline == HighRiskBorderline(frame, limits, threshold)
    ensures r.Ok? ==> r.value.duplicates == Duplicates(frame) && r.value.conflicts == Conflicts(frame)
    ensures r.Ok? ==>
      TotalIssues(r.value) == |MissingCritical(frame)| + |SuspectOutliers(frame)|
        + |HighRiskBorderline(frame, limits, threshold)| + |Duplicates(frame)| + |Conflicts(frame)|
  {
    if BuildFails(frame, limits, threshold) then Err("column not found")
    else Ok(DqLists(MissingCritical(frame), SuspectOutliers(frame), HighRiskBorderline(frame, limits, threshold),
      Duplicates(frame), Conflicts(frame), []))
  }

  /** `build_dq_lists`: the builder with the default 2 mm threshold. */
  function BuildDqLists(frame: MdFrame, limits: Option<seq<(string, real)>>): (r: Result<DqLists>)
    ensures r == BuildAllLists(frame, limits, Config.BorderlineThresholdMm)
    ensures r.Ok? ==> r.value.collisions == []
  {
    BuildAllLists(frame, limits, Config.BorderlineThresholdMm)
  }

  /** SKU cells without repetitions. */
  predicate DistinctSkus(frame: MdFrame)
  {
    Sku in frame.columns && Seqs.NoDup(SkuCells(frame.rows))
  }

  /** Every measurement strictly inside the suspect ranges and below the
      borderline bands of the default limits. */
  predicate CleanRow(row: MdRow)
  {
    Gt(row.length, 10.0) && Lt(row.length, 598.0) && Gt(row.width, 10.0) && Lt(row.width, 398.0) &&
    Gt(row.height, 5.0) && Lt(row.height, 348.0) && Gt(row.weight, 0.01) && Lt(row.weight, 200.0)
  }

  /** A clean frame with distinct SKUs gives no items at all. */
  lemma CleanFrameNoIssues(frame: MdFrame)
    requires DistinctSkus(frame)
    requires forall row | row in frame.rows :: CleanRow(row)
    ensures BuildDqLists(frame, None).Ok?
    ensures TotalIssues(BuildDqLists(frame, None).value) == 0
  {
    var t := Config.BorderlineThresholdMm;
    CleanNoMissing(frame);
    CleanNoSuspect(frame);
    CleanNoBorderline(frame);
    DistinctNoDuplicates(frame);
    DefaultLimitsSkip();
    assert !BuildFails(frame, None, t);
    var r := BuildAllLists(frame, None, t);
    assert TotalIssues(r.value) == 0;
  }

  /** No default limit names the SKU column. */
  lemma DefaultLimitsSkip()
    ensures forall k :: 0 <= k < |DefaultLimits| ==> DefaultLimits[k].0 != "sku"
  {
  }

  lemma CleanNoMissing(frame: MdFrame)
    requires forall row | row in frame.rows :: CleanRow(row)
    ensures MissingCritical(frame) == []
  {
    MissingNone(frame, Length);
    MissingNone(frame, Width);
    MissingNone(frame, Height);
    MissingNone(frame, Weight);
  }

  lemma CleanNoSuspect(frame: MdFrame)
    requires forall row | row in frame.rows :: CleanRow(row)
    ensures SuspectOutliers(frame) == []
  {
    SuspectNone(frame, Length);
    SuspectNone(frame, Width);
    SuspectNone(frame, Height);
    SuspectNone(frame, Weight);
  }

  lemma CleanNoBorderline(frame: MdFrame)
    requires forall row | row in frame.rows :: CleanRow(row)
    ensures HighRiskBorderline(frame, None, Config.BorderlineThresholdMm) == []
  {
    var t := Config.BorderlineThresholdMm;
    forall k, row | 0 <= k < |DefaultLimits| && row in frame.rows && LimitColumn(frame, DefaultLimits[k].0).Some?
      ensures !InBand(DefaultLimits[k].1 - t, DefaultLimits[k].1)(Num(row, LimitColumn(frame, DefaultLimits[k].0).value))
    {
      assert CleanRow(row);
    }
    NoBorderlineFor(frame, DefaultLimits, t);
  }

  lemma {:induction false} NoBorderlineFor(frame: MdFrame, limits: seq<(string, real)>, t: real)
    requires forall k, row | 0 <= k < |limits| && row in frame.rows && LimitColumn(frame, limits[k].0).Some? ::
      !InBand(limits[k].1 - t, limits[k].1)(Num(row, LimitColumn(frame, limits[k].0).value))
    ensures BorderlineFor(frame, limits, t) == []
  {
    if |limits| > 0 {
      assert forall k :: 0 <= k < |limits[1..]| ==> limits[1..][k] == limits[k + 1];
      NoBorderlineFor(frame, limits[1..], t);
      var e := limits[0];
      var f := LimitColumn(frame, e.0);
      if f.Some? {
        forall i | 0 <= i < |frame.rows|
          ensures !At(f.value, InBand(e.1 - t, e.1))(frame.rows[i])
        {
          assert frame.rows[i] in frame.rows;
        }
      }
    }
  }

  lemma DistinctNoDuplicates(frame: MdFrame)
    requires DistinctSkus(frame)
    ensures Duplicates(frame) == [] && Conflicts(frame) == []
  {
    forall c ensures Seqs.Occurrences(SkuCells(frame.rows), c) <= 1 {
      if c in SkuCells(frame.rows) {
        Seqs.OccurrencesNoDup(SkuCells(frame.rows), c);
      }
    }
    assert DuplicatedSkus(frame.rows) == [];
  }

  lemma MissingNone(frame: MdFrame, f: Field)
    requires forall row | row in frame.rows :: Gt(Num(row, f), 0.0)
    ensures MissingCount(frame, f) == 0
  {
    forall i | 0 <= i < |frame.rows|
      ensures !At(f, MissingOrNonPositive)(frame.rows[i])
    {
      assert frame.rows[i] in frame.rows;
      assert At(f, MissingOrNonPositive)(frame.rows[i]) == MissingOrNonPositive(Num(frame.rows[i], f));
    }
  }

  lemma SuspectNone(frame: MdFrame, f: Field)
    requires f in {Length, Width, Height, Weight}
    requires forall row | row in frame.rows :: Gt(Num(row, f), SuspectBounds(f).low) && Lt(Num(row, f), SuspectBounds(f).high)
    ensures SuspectItems(frame, f) == []
  {
  }
}
