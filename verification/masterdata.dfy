/** Masterdata processing (src/model/masterdata.py): consolidation of
    duplicate SKUs, per-row volume and size category. */
module Masterdata {
  import opened Wrappers
  import opened Frame
  import Types
  import Seqs
  import Impute

  /** `consolidation_strategy`: "max", "mean", and anything else is "first". */
  datatype Strategy = First | Max | Mean

  function StrategyNamed(name: string): (s: Strategy)
    ensures s == Max <==> name == "max"
    ensures s == Mean <==> name == "mean"
  {
    if name == "max" then Max else if name == "mean" then Mean else First
  }

  datatype ConsolidationResult = ConsolidationResult(
    frame: MdFrame,
    originalCount: nat,
    consolidatedCount: nat,
    duplicatesMerged: int,
    conflictsResolved: nat)

  // ---------------------------------------------------------------------
  // Aggregation of one group
  // ---------------------------------------------------------------------

  /** The non-null values of a column, in order. */
  function Values(cells: seq<Option<real>>): (vs: seq<real>)
    ensures forall v :: v in vs <==> Some(v) in cells
    ensures |vs| == 0 <==> forall i :: 0 <= i < |cells| ==> cells[i].None?
  {
    if |cells| == 0 then []
    else
      var rest := Values(cells[1..]);
      assert forall i :: 1 <= i < |cells| ==> cells[i] == cells[1..][i - 1];
      if cells[0].Some? then [cells[0].value] + rest else rest
  }

  function MaxOf(vs: seq<real>): (m: real)
    requires |vs| > 0
    ensures m in vs && forall v | v in vs :: v <= m
  {
    if |vs| == 1 then vs[0]
    else
      var rest := MaxOf(vs[1..]);
      assert forall v | v in vs :: v == vs[0] || v in vs[1..];
      if vs[0] >= rest then vs[0] else rest
  }

  /** `first()`, `max()` and `mean()` of a column within a group: `first`
      keeps a leading null, `max` and `mean` skip nulls and are null only
      when every cell is. */
  function Aggregate(s: Strategy, cells: seq<Option<real>>): (r: Option<real>)
    requires |cells| > 0
    ensures s == First ==> r == cells[0]
    ensures s != First ==> (r.None? <==> forall i :: 0 <= i < |cells| ==> cells[i].None?)
    ensures s == Max && r.Some? ==> Some(r.value) in cells && forall i | 0 <= i < |cells| && cells[i].Some? :: cells[i].value <= r.value
    ensures s == Mean && r.Some? ==> Impute.Between(Values(cells), r.value)
    ensures s == Mean && r.Some? ==> Impute.IsMean(Values(cells), r.value)
  {
    var vs := Values(cells);
    match s
    case First => cells[0]
    case Max => if |vs| == 0 then None else Some(MaxOf(vs))
    case Mean =>
      if |vs| == 0 then None
      else
Some(Impute.MeanOf(vs))
  }

  /** The cells of column `f` over some rows. */
  function Column(rows: seq<MdRow>, f: Field): (c: seq<Option<real>>)
    ensures |c| == |rows| && forall i :: 0 <= i < |rows| ==> c[i] == Num(rows[i], f)
  {
    seq(|rows|, i requires 0 <= i < |rows| => Num(rows[i], f))
  }

  function AggregateColumn(s: Strategy, frame: MdFrame, group: seq<MdRow>, f: Field): Option<real>
    requires |group| > 0
  {
    if f in frame.columns then Aggregate(s, Column(group, f)) else None
  }

  function FirstFlag(frame: MdFrame, group: seq<MdRow>, f: Field): Option<Types.DataQualityFlag>
    requires |group| > 0
  {
    if f in frame.flagColumns then FlagOf(group[0], f) else None
  }

  /** `_consolidate_group` for one SKU: each numeric column present is
      aggregated by the strategy and each flag takes its first value. */
  function ConsolidateGroup(s: Strategy, frame: MdFrame, group: seq<MdRow>): (r: MdRow)
    requires |group| > 0
    ensures r.sku == group[0].sku
    ensures forall f | f != Sku && f in frame.columns :: Num(r, f) == Aggregate(s, Column(group, f))
    ensures forall f | f != Sku && f in frame.flagColumns :: FlagOf(r, f) == FlagOf(group[0], f)
  {
    MdRow(group[0].sku,
      AggregateColumn(s, frame, group, Length), AggregateColumn(s, frame, group, Width),
      AggregateColumn(s, frame, group, Height), AggregateColumn(s, frame, group, Weight),
      AggregateColumn(s, frame, group, Stock),
      FirstFlag(frame, group, Length), FirstFlag(frame, group, Width), FirstFlag(frame, group, Height),
      FirstFlag(frame, group, Weight), FirstFlag(frame, group, Stock))
  }

  // ---------------------------------------------------------------------
  // Consolidation
  // ---------------------------------------------------------------------

  function SkuIs(c: Option<string>): MdRow -> bool
  {
    (row: MdRow) => row.sku == c
  }

  /** The rows of one SKU, in order. */
  function GroupOf(rows: seq<MdRow>, c: Option<string>): (g: seq<MdRow>)
    requires c in SkuCells(rows)
    ensures |g| > 0 && forall row | row in g :: row.sku == c
  {
    var i :| 0 <= i < |rows| && SkuCells(rows)[i] == c;
    assert SkuIs(c)(rows[i]);
    Seqs.Filter(rows, SkuIs(c))
  }

  /** `~sku.is_in(duplicates)` kept true: a null SKU gives null and is
      dropped, like every other null condition. */
  function Kept(dups: seq<Option<string>>): MdRow -> bool
  {
    (row: MdRow) => row.sku.Some? && row.sku !in dups
  }

  /** The duplicated SKUs whose rows reach the grouping: `is_in` is null
      on a null SKU, so a repeated null never forms a group. */
  function GroupKeys(dups: seq<Option<string>>): seq<Option<string>>
  {
    Seqs.Filter(dups, (c: Option<string>) => c.Some?)
  }

  function Groups(s: Strategy, frame: MdFrame, keys: seq<Option<string>>): (r: seq<MdRow>)
    requires forall k | k in keys :: k in SkuCells(frame.rows)
    ensures |r| == |keys|
    ensures forall i :: 0 <= i < |keys| ==> r[i].sku == keys[i]
    ensures forall i :: 0 <= i < |keys| ==> r[i] == ConsolidateGroup(s, frame, GroupOf(frame.rows, keys[i]))
  {
    seq(|keys|, i requires 0 <= i < |keys| => ConsolidateGroup(s, frame, GroupOf(frame.rows, keys[i])))
  }

  /** The merge `consolidate_duplicates` intends, with the consolidated
      rows stacked under the unique ones column by column: fails without
      a SKU column; with no repeated SKU the frame is returned as it is;
      otherwise the rows of SKUs occurring once, then one consolidated row
      per duplicated SKU. */
  function Consolidate(s: Strategy, frame: MdFrame): (r: Result<ConsolidationResult>)
    ensures r.Err? <==> Sku !in frame.columns
    ensures r.Ok? ==> r.value.originalCount == |frame.rows|
    ensures r.Ok? ==> r.value.consolidatedCount == |r.value.frame.rows|
    ensures r.Ok? ==> r.value.duplicatesMerged == r.value.originalCount - r.value.consolidatedCount
    ensures r.Ok? ==> r.value.conflictsResolved == |DuplicatedSkus(frame.rows)|
    ensures r.Ok? ==> r.value.frame.columns == frame.columns && r.value.frame.flagColumns == frame.flagColumns
    ensures r.Ok? && DuplicatedSkus(frame.rows) == [] ==> r.value.frame == frame && r.value.duplicatesMerged == 0
  {
    if Sku !in frame.columns then Err("column sku not found")
    else
      var dups := DuplicatedSkus(frame.rows);
      if dups == [] then Ok(ConsolidationResult(frame, |frame.rows|, |frame.rows|, 0, 0))
      else
        var keys := GroupKeys(dups);
        var rows := Seqs.Filter(frame.rows, Kept(dups)) + Groups(s, frame, keys);
        Ok(ConsolidationResult(frame.(rows := rows), |frame.rows|, |rows|, |frame.rows| - |rows|, |dups|))
  }

  /** `consolidate_duplicates` as written. The vertical `pl.concat` of the
      unique rows and the `group_by` output fails unless both have the same
      column names, order and dtypes; the `group_by` output has the SKU
      first, then the present numeric columns in list order, then the
      present flags, then `orientation_constraint` when present; it drops
      only the other columns, and "mean" turns an integer column into a
      float one. Frames here carry no column order or dtypes, so
      `sameSchema` says whether the frame's schema is that output's. */
  function ConsolidateDuplicates(s: Strategy, frame: MdFrame, sameSchema: bool): (r: Result<ConsolidationResult>)
    ensures r.Err? <==> Sku !in frame.columns || (DuplicatedSkus(frame.rows) != [] && !sameSchema)
    ensures r.Ok? ==> r == Consolidate(s, frame)
  {
    if Sku in frame.columns && DuplicatedSkus(frame.rows) != [] && !sameSchema then
      Err("schema of the consolidated rows differs from the frame's")
    else Consolidate(s, frame)
  }

  /** A frame with a repeated SKU whose schema is not the `group_by`
      output's fails as written, where the intended merge succeeds. */
  lemma MismatchedSchemaFails(s: Strategy, frame: MdFrame)
    requires Sku in frame.columns && DuplicatedSkus(frame.rows) != []
    ensures ConsolidateDuplicates(s, frame, false).Err?
    ensures Consolidate(s, frame).Ok?
  {
  }

  // ---------------------------------------------------------------------
  // What consolidation achieves
  // ---------------------------------------------------------------------

  /** Filtering never adds occurrences of a SKU. */
  lemma {:induction false} SkuOccurrencesFilter(rows: seq<MdRow>, p: MdRow -> bool, c: Option<string>)
    ensures Seqs.Occurrences(SkuCells(Seqs.Filter(rows, p)), c) <= Seqs.Occurrences(SkuCells(rows), c)
  {
    if |rows| > 0 {
      SkuOccurrencesFilter(rows[1..], p, c);
      FilterOccurrencesStep(rows, p, c);
    }
  }

  /** The step of `SkuOccurrencesFilter` past the first row. */
  lemma FilterOccurrencesStep(rows: seq<MdRow>, p: MdRow -> bool, c: Option<string>)
    requires |rows| > 0
    requires Seqs.Occurrences(SkuCells(Seqs.Filter(rows[1..], p)), c) <= Seqs.Occurrences(SkuCells(rows[1..]), c)
    ensures Seqs.Occurrences(SkuCells(Seqs.Filter(rows, p)), c) <= Seqs.Occurrences(SkuCells(rows), c)
  {
    var rest := Seqs.Filter(rows[1..], p);
    var f := Seqs.Filter(rows, p);
    CellsHead(rows, c);
    if p(rows[0]) {
      assert f == [rows[0]] + rest;
      assert f[0] == rows[0] && f[1..] == rest;
      CellsHead(f, c);
    } else {
      assert f == rest;
    }
  }

  /** The SKU cells of a non-empty row sequence, and their count of `c`,
      split at the first row. */
  lemma CellsHead(rows: seq<MdRow>, c: Option<string>)
    requires |rows| > 0
    ensures Seqs.Occurrences(SkuCells(rows), c) == (if rows[0].sku == c then 1 else 0) + Seqs.Occurrences(SkuCells(rows[1..]), c)
  {
    var cells := SkuCells(rows);
    assert cells[1..] == SkuCells(rows[1..]);
  }

  /** The kept rows carry distinct, non-null SKUs none of which is duplicated. */
  lemma KeptDistinct(rows: seq<MdRow>)
    ensures var kept := SkuCells(Seqs.Filter(rows, Kept(DuplicatedSkus(rows))));
      Seqs.NoDup(kept) && forall c | c in kept :: c.Some? && c !in DuplicatedSkus(rows)
  {
    var dups := DuplicatedSkus(rows);
    var f := Seqs.Filter(rows, Kept(dups));
    var kept := SkuCells(f);
    forall c | c in kept
      ensures c.Some? && c !in dups
    {
      var i :| 0 <= i < |kept| && kept[i] == c;
      assert f[i] in f;
    }
    forall i, j | 0 <= i < j < |kept|
      ensures kept[i] != kept[j]
    {
      assert kept[i] in kept;
      SkuOccurrencesFilter(rows, Kept(dups), kept[i]);
      Seqs.RareDistinct(kept, i, j);
    }
  }

  /** The SKU column of a concatenation. */
  lemma SkuCellsAppend(a: seq<MdRow>, b: seq<MdRow>)
    ensures SkuCells(a + b) == SkuCells(a) + SkuCells(b)
  {
  }

  /** The SKU column after consolidation: the kept SKUs, then the group keys. */
  lemma ConsolidatedSkuCells(s: Strategy, frame: MdFrame)
    requires Sku in frame.columns && DuplicatedSkus(frame.rows) != []
    ensures var dups := DuplicatedSkus(frame.rows);
      SkuCells(Consolidate(s, frame).value.frame.rows)
        == SkuCells(Seqs.Filter(frame.rows, Kept(dups))) + GroupKeys(dups)
  {
    var dups := DuplicatedSkus(frame.rows);
    var groups := Groups(s, frame, GroupKeys(dups));
    SkuCellsAppend(Seqs.Filter(frame.rows, Kept(dups)), groups);
    assert SkuCells(groups) == GroupKeys(dups);
  }

  /** After consolidation every SKU occurs once. */
  lemma ConsolidatedSkusDistinct(s: Strategy, frame: MdFrame)
    requires Sku in frame.columns && DuplicatedSkus(frame.rows) != []
    ensures Seqs.NoDup(SkuCells(Consolidate(s, frame).value.frame.rows))
  {
    var dups := DuplicatedSkus(frame.rows);
    ConsolidatedSkuCells(s, frame);
    KeptDistinct(frame.rows);
    Seqs.FilterNoDup(dups, (c: Option<string>) => c.Some?);
    Seqs.NoDupAppend(SkuCells(Seqs.Filter(frame.rows, Kept(dups))), GroupKeys(dups));
  }

  /** A non-null SKU of the input is kept or is a group key. */
  lemma CoveredByKeptOrKeys(rows: seq<MdRow>, c: Option<string>)
    requires c.Some? && c in SkuCells(rows)
    ensures var dups := DuplicatedSkus(rows);
      c in SkuCells(Seqs.Filter(rows, Kept(dups))) || c in GroupKeys(dups)
  {
    var dups := DuplicatedSkus(rows);
    var kept := Seqs.Filter(rows, Kept(dups));
    var i :| 0 <= i < |rows| && SkuCells(rows)[i] == c;
    if c !in dups {
      assert Kept(dups)(rows[i]);
      var k :| 0 <= k < |kept| && kept[k] == rows[i];
      assert SkuCells(kept)[k] == c;
    }
  }

  /** A kept SKU is a non-null SKU of the input. */
  lemma KeptFromInput(rows: seq<MdRow>, c: Option<string>)
    requires c in SkuCells(Seqs.Filter(rows, Kept(DuplicatedSkus(rows))))
    ensures c.Some? && c in SkuCells(rows)
  {
    var kept := Seqs.Filter(rows, Kept(DuplicatedSkus(rows)));
    var i :| 0 <= i < |kept| && SkuCells(kept)[i] == c;
    assert kept[i] in kept;
    var k :| 0 <= k < |rows| && rows[k] == kept[i];
    assert SkuCells(rows)[k] == c;
  }

  /** After consolidation the SKUs are exactly the non-null SKUs of the
      input: a null SKU row never survives once some SKU is duplicated. */
  lemma ConsolidatedSkusExact(s: Strategy, frame: MdFrame)
    requires Sku in frame.columns && DuplicatedSkus(frame.rows) != []
    ensures forall c :: (c in SkuCells(Consolidate(s, frame).value.frame.rows)
      <==> c.Some? && c in SkuCells(frame.rows))
  {
    var dups := DuplicatedSkus(frame.rows);
    var kept := SkuCells(Seqs.Filter(frame.rows, Kept(dups)));
    ConsolidatedSkuCells(s, frame);
    forall c: Option<string>
      ensures c in kept + GroupKeys(dups) <==> c.Some? && c in SkuCells(frame.rows)
    {
      if c.Some? && c in SkuCells(frame.rows) {
        CoveredByKeptOrKeys(frame.rows, c);
      }
      if c in kept {
        KeptFromInput(frame.rows, c);
      }
    }
  }

  /** `consolidated_count` is the number of distinct non-null SKUs. */
  lemma ConsolidatedCountIsDistinctSkus(s: Strategy, frame: MdFrame)
    requires Sku in frame.columns && DuplicatedSkus(frame.rows) != []
    ensures Consolidate(s, frame).value.consolidatedCount
      == |set c | c in SkuCells(frame.rows) && c.Some?|
  {
    var out := SkuCells(Consolidate(s, frame).value.frame.rows);
    ConsolidatedSkusDistinct(s, frame);
    ConsolidatedSkusExact(s, frame);
    Seqs.NoDupCard(out);
    assert (set c | c in out) == (set c | c in SkuCells(frame.rows) && c.Some?);
  }

  /** Rows of SKUs that occur once come through consolidation unchanged. */
  lemma UniqueRowsKept(s: Strategy, frame: MdFrame, i: nat)
    requires Sku in frame.columns && i < |frame.rows|
    requires frame.rows[i].sku.Some? && Seqs.Occurrences(SkuCells(frame.rows), frame.rows[i].sku) == 1
    ensures frame.rows[i] in Consolidate(s, frame).value.frame.rows
  {
    var dups := DuplicatedSkus(frame.rows);
    if dups != [] {
      assert Kept(dups)(frame.rows[i]);
      assert frame.rows[i] in Seqs.Filter(frame.rows, Kept(dups));
    }
  }

  /** The SKU cells outside `Kept` when some SKU is duplicated: a null SKU
      row never survives. */
  lemma NullSkuRowsDropped(s: Strategy, frame: MdFrame)
    requires Sku in frame.columns && DuplicatedSkus(frame.rows) != []
    ensures None !in SkuCells(Consolidate(s, frame).value.frame.rows)
  {
    ConsolidatedSkusExact(s, frame);
  }

  // ---------------------------------------------------------------------
  // Volume and size category
  // ---------------------------------------------------------------------

  /** `length_mm * width_mm * height_mm / 1e9`, null when any dimension is. */
  function VolumeM3(row: MdRow): (v: Option<real>)
    ensures v.Some? <==> row.length.Some? && row.width.Some? && row.height.Some?
    ensures v.Some? && row.length.value >= 0.0 && row.width.value >= 0.0 && row.height.value >= 0.0 ==>
      v.value == Types.RowVolumeM3(Types.MasterdataRow(SkuText(row.sku), row.length.value, row.width.value,
        row.height.value, 0.0, 0, Types.Raw, Types.Raw, Types.Raw, Types.Raw, Types.Raw, Types.Any))
  {
    if row.length.Some? && row.width.Some? && row.height.Some? then
      Some(row.length.value * row.width.value * row.height.value / 1000000000.0)
    else None
  }

  datatype SizeCategory = XS | S | M | L | XL

  function Rank(c: SizeCategory): nat
  {
    match c
    case XS => 0
    case S => 1
    case M => 2
    case L => 3
    case XL => 4
  }

  /** The size band of a volume in m³; a null volume falls through every
      comparison to XL. */
  function SizeOf(v: Option<real>): (c: SizeCategory)
    ensures v.None? ==> c == XL
    ensures v.Some? ==> (c == XS <==> v.value < 0.001)
    ensures v.Some? ==> (c == S <==> 0.001 <= v.value < 0.01)
    ensures v.Some? ==> (c == M <==> 0.01 <= v.value < 0.05)
    ensures v.Some? ==> (c == L <==> 0.05 <= v.value < 0.1)
    ensures v.Some? ==> (c == XL <==> 0.1 <= v.value)
  {
    if Lt(v, 0.001) then XS
    else if Lt(v, 0.01) then S
    else if Lt(v, 0.05) then M
    else if Lt(v, 0.1) then L
    else XL
  }

  /** A larger volume never gets a smaller size band. */
  lemma SizeMonotone(a: real, b: real)
    requires a <= b
    ensures Rank(SizeOf(Some(a))) <= Rank(SizeOf(Some(b)))
  {
  }

  datatype ProcessedRow = ProcessedRow(row: MdRow, volumeM3: Option<real>, sizeCategory: SizeCategory)

  /** `calculate_volume` followed by `add_size_category`: the volume
      column exists only when all three dimension columns do, and
      `add_size_category` then reads a column that is absent. */
  function AddVolumeAndSize(frame: MdFrame): (r: Result<seq<ProcessedRow>>)
    ensures r.Err? <==> !(Length in frame.columns && Width in frame.columns && Height in frame.columns)
    ensures r.Ok? ==> |r.value| == |frame.rows|
    ensures r.Ok? ==> forall i :: 0 <= i < |frame.rows| ==>
      r.value[i].row == frame.rows[i] && r.value[i].volumeM3 == VolumeM3(frame.rows[i]) &&
      r.value[i].sizeCategory == SizeOf(r.value[i].volumeM3)
  {
    if Length in frame.columns && Width in frame.columns && Height in frame.columns then
      Ok(seq(|frame.rows|, i requires 0 <= i < |frame.rows| =>
        ProcessedRow(frame.rows[i], VolumeM3(frame.rows[i]), SizeOf(VolumeM3(frame.rows[i])))))
    else Err("column volume_m3 not found")
  }

  /** `process`: consolidate, then volume and size category. */
  function Process(s: Strategy, frame: MdFrame, sameSchema: bool): (r: Result<seq<ProcessedRow>>)
    ensures r.Err? <==> (Sku !in frame.columns || Length !in frame.columns || Width !in frame.columns ||
                         Height !in frame.columns || (DuplicatedSkus(frame.rows) != [] && !sameSchema))
    ensures r.Ok? ==> |r.value| == Consolidate(s, frame).value.consolidatedCount
    ensures r.Ok? && DuplicatedSkus(frame.rows) == [] ==>
      |r.value| == |frame.rows| && forall i :: 0 <= i < |frame.rows| ==> r.value[i].row == frame.rows[i]
  {
    match ConsolidateDuplicates(s, frame, sameSchema)
    case Err(e) => Err(e)
    case Ok(c) => AddVolumeAndSize(c.frame)
  }
}
