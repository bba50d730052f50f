/** The masterdata frame the quality and model stages pass along: the
    canonical columns, which of them exist, and one record per row. A null
    cell is `None`. Polars compares a null with anything to null, and `filter`
    drops rows whose condition is null; the comparison predicates below are
    therefore false on `None`. */
module Frame {
  import opened Wrappers
  import Types
  import Seqs

  datatype Field = Sku | Length | Width | Height | Weight | Stock

  /** The numeric columns, in the order the stages list them. */
  const NumericFields: seq<Field> := [Length, Width, Height, Weight, Stock]
  const DimensionFields: seq<Field> := [Length, Width, Height]

  function ColumnName(f: Field): string
  {
    match f
    case Sku => "sku"
    case Length => "length_mm"
    case Width => "width_mm"
    case Height => "height_mm"
    case Weight => "weight_kg"
    case Stock => "stock_qty"
  }

  /** The column a name denotes, if it is one of the modelled columns. */
  function FieldNamed(name: string): (f: Option<Field>)
    ensures f.Some? ==> ColumnName(f.value) == name
    ensures forall g: Field :: ColumnName(g) == name ==> f == Some(g)
  {
    if name == "sku" then Some(Sku)
    else if name == "length_mm" then Some(Length)
    else if name == "width_mm" then Some(Width)
    else if name == "height_mm" then Some(Height)
    else if name == "weight_kg" then Some(Weight)
    else if name == "stock_qty" then Some(Stock)
    else None
  }

  datatype MdRow = MdRow(
    sku: Option<string>,
    length: Option<real>,
    width: Option<real>,
    height: Option<real>,
    weight: Option<real>,
    stock: Option<real>,
    lengthFlag: Option<Types.DataQualityFlag>,
    widthFlag: Option<Types.DataQualityFlag>,
    heightFlag: Option<Types.DataQualityFlag>,
    weightFlag: Option<Types.DataQualityFlag>,
    stockFlag: Option<Types.DataQualityFlag>)

  /** `columns` are the data columns present, `flagColumns` the numeric
      fields whose `<field>_flag` column is present. */
  datatype MdFrame = MdFrame(columns: set<Field>, flagColumns: set<Field>, rows: seq<MdRow>)

  /** The cell of a numeric column; the SKU column holds no number. */
  function Num(r: MdRow, f: Field): Option<real>
  {
    match f
    case Sku => None
    case Length => r.length
    case Width => r.width
    case Height => r.height
    case Weight => r.weight
    case Stock => r.stock
  }

  function SetNum(r: MdRow, f: Field, v: Option<real>): (s: MdRow)
    requires f != Sku
    ensures Num(s, f) == v
    ensures forall g :: g != Sku && g != f ==> Num(s, g) == Num(r, g)
    ensures s.sku == r.sku
    ensures forall g :: g != Sku ==> FlagOf(s, g) == FlagOf(r, g)
  {
    match f
    case Length => r.(length := v)
    case Width => r.(width := v)
    case Height => r.(height := v)
    case Weight => r.(weight := v)
    case Stock => r.(stock := v)
  }

  /** The `<field>_flag` cell of a numeric column. */
  function FlagOf(r: MdRow, f: Field): Option<Types.DataQualityFlag>
  {
    match f
    case Sku => None
    case Length => r.lengthFlag
    case Width => r.widthFlag
    case Height => r.heightFlag
    case Weight => r.weightFlag
    case Stock => r.stockFlag
  }

  function SetFlag(r: MdRow, f: Field, v: Option<Types.DataQualityFlag>): (s: MdRow)
    requires f != Sku
    ensures FlagOf(s, f) == v
    ensures forall g :: g != Sku && g != f ==> FlagOf(s, g) == FlagOf(r, g)
    ensures s.sku == r.sku
    ensures forall g :: g != Sku ==> Num(s, g) == Num(r, g)
  {
    match f
    case Length => r.(lengthFlag := v)
    case Width => r.(widthFlag := v)
    case Height => r.(heightFlag := v)
    case Weight => r.(weightFlag := v)
    case Stock => r.(stockFlag := v)
  }

  /** Python `str()` of a SKU cell: a null prints as "None". */
  function SkuText(s: Option<string>): string
  {
    if s.Some? then s.value else "None"
  }

  /** The SKU column as a sequence of cells. */
  function SkuCells(rows: seq<MdRow>): (r: seq<Option<string>>)
    ensures |r| == |rows| && forall i :: 0 <= i < |rows| ==> r[i] == rows[i].sku
  {
    seq(|rows|, i requires 0 <= i < |rows| => rows[i].sku)
  }

  function RepeatedIn(cells: seq<Option<string>>): Option<string> -> bool
  {
    (c: Option<string>) => Seqs.Occurrences(cells, c) > 1
  }

  /** The SKU values occurring more than once (null included), each once, in
      order of first occurrence. */
  function DuplicatedSkus(rows: seq<MdRow>): (d: seq<Option<string>>)
    ensures Seqs.NoDup(d)
    ensures forall c :: c in d <==> Seqs.Occurrences(SkuCells(rows), c) > 1
  {
    var cells := SkuCells(rows);
    var u := Seqs.Distinct(cells);
    Seqs.FilterNoDup(u, RepeatedIn(cells));
    forall c | Seqs.Occurrences(cells, c) > 1
      ensures c in u
    {
      var i :| 0 <= i < |cells| && cells[i] == c;
    }
    Seqs.Filter(u, RepeatedIn(cells))
  }

  /** A cell predicate of column `f` lifted to rows. */
  function At(f: Field, p: Option<real> -> bool): MdRow -> bool
  {
    (row: MdRow) => p(Num(row, f))
  }

  /** `col > x`, `col < x`, `col == x`, `col <= x` under null semantics. */
  predicate Gt(v: Option<real>, x: real) { v.Some? && v.value > x }
  predicate Lt(v: Option<real>, x: real) { v.Some? && v.value < x }
  predicate EqTo(v: Option<real>, x: real) { v.Some? && v.value == x }
  predicate Le(v: Option<real>, x: real) { v.Some? && v.value <= x }

  /** `is_null() | (col <= 0)`, or `is_null()` alone when zero is a value. */
  predicate MissingCell(v: Option<real>, zeroIsMissing: bool)
  {
    v.None? || (zeroIsMissing && v.value <= 0.0)
  }
}
