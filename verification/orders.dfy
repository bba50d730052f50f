/** Orders processing (src/model/orders.py): the left join with
    masterdata, the unmatched SKUs, and the order statistics. Timestamps
    are kept as ordered integers; parsing and the date/hour helper columns
    are not modelled. */
module Orders {
  import opened Wrappers
  import Seqs

  datatype OrderLine = OrderLine(
    orderId: Option<string>,
    sku: Option<string>,
    quantity: Option<int>,
    timestamp: Option<int>)

  datatype OrderColumn = OrderId | OrderSku | Quantity | Timestamp

  datatype OrdersFrame = OrdersFrame(columns: set<OrderColumn>, lines: seq<OrderLine>)

  /** The masterdata columns the join copies, besides the SKU. */
  datatype MdColumn = MdLength | MdWidth | MdHeight | MdWeight | MdVolume | MdSize

  datatype MdEntry = MdEntry(
    sku: Option<string>,
    length: Option<real>,
    width: Option<real>,
    height: Option<real>,
    weight: Option<real>,
    volume: Option<real>,
    size: Option<string>)

  datatype MdTable = MdTable(hasSku: bool, columns: set<MdColumn>, entries: seq<MdEntry>)

  /** A joined row: the order line, the masterdata columns it matched
      (`None` when nothing matched, so every copied column is null), and
      the derived line volume and weight. */
  datatype JoinedLine = JoinedLine(
    line: OrderLine,
    md: Option<MdEntry>,
    lineVolume: Option<real>,
    lineWeight: Option<real>)

  // ---------------------------------------------------------------------
  // Join
  // ---------------------------------------------------------------------

  /** `masterdata_df.select(md_cols)`: the columns the table lacks read as null. */
  function Project(columns: set<MdColumn>, e: MdEntry): (r: MdEntry)
    ensures r.sku == e.sku
    ensures r.volume == (if MdVolume in columns then e.volume else None)
    ensures r.weight == (if MdWeight in columns then e.weight else None)
  {
    MdEntry(e.sku,
      if MdLength in columns then e.length else None,
      if MdWidth in columns then e.width else None,
      if MdHeight in columns then e.height else None,
      if MdWeight in columns then e.weight else None,
      if MdVolume in columns then e.volume else None,
      if MdSize in columns then e.size else None)
  }

  function EntryFor(c: Option<string>): MdEntry -> bool
  {
    (e: MdEntry) => e.sku == c
  }

  /** The masterdata entries a SKU joins to: a null key matches nothing. */
  function Matches(md: MdTable, c: Option<string>): (ms: seq<MdEntry>)
    ensures forall e | e in ms :: e in md.entries && c.Some? && e.sku == c
    ensures c.Some? ==> |ms| == Seqs.Count(md.entries, EntryFor(c))
    ensures c.Some? ==> forall e | e in md.entries && e.sku == c :: e in ms
  {
    if c.None? then [] else Seqs.Filter(md.entries, EntryFor(c))
  }

  /** `volume_m3 * quantity` and `weight_kg * quantity`, null when either
      side is. */
  function Times(a: Option<real>, q: Option<int>): (r: Option<real>)
    ensures r.Some? <==> a.Some? && q.Some?
    ensures r.Some? ==> r.value == a.value * q.value as real
  {
    if a.Some? && q.Some? then Some(a.value * q.value as real) else None
  }

  function JoinedOf(hasQuantity: bool, md: MdTable, line: OrderLine, m: Option<MdEntry>): (j: JoinedLine)
    ensures j.line == line && (j.md.Some? <==> m.Some?)
    ensures m.Some? ==> j.md.value.sku == m.value.sku
  {
    var e := if m.Some? then Some(Project(md.columns, m.value)) else None;
    var volume := if e.Some? then e.value.volume else None;
    var weight := if e.Some? then e.value.weight else None;
    JoinedLine(line, e,
      if MdVolume in md.columns && hasQuantity then Times(volume, line.quantity) else None,
      if MdWeight in md.columns && hasQuantity then Times(weight, line.quantity) else None)
  }

  /** The left-join rows of one order line: one per matching entry, or
      one with null masterdata columns when none matches. */
  function JoinLine(hasQuantity: bool, md: MdTable, line: OrderLine): (r: seq<JoinedLine>)
    ensures |r| >= 1
    ensures forall j | j in r :: j.line == line
    ensures forall j | j in r :: j.md.Some? ==> line.sku.Some? && j.md.value.sku == line.sku
    ensures (exists j | j in r :: j.md.None?) <==> |Matches(md, line.sku)| == 0
    ensures |Matches(md, line.sku)| > 0 ==> |r| == |Matches(md, line.sku)|
    ensures |Matches(md, line.sku)| == 0 ==> |r| == 1
  {
    var ms := Matches(md, line.sku);
    if |ms| == 0 then [JoinedOf(hasQuantity, md, line, None)]
    else
      MatchedLines(hasQuantity, md, line, ms)
  }

  /** One joined line per master-data entry of the line's SKU, in order. */
  function MatchedLines(hasQuantity: bool, md: MdTable, line: OrderLine, ms: seq<MdEntry>): (r: seq<JoinedLine>)
    requires forall e | e in ms :: line.sku.Some? && e.sku == line.sku
    ensures |r| == |ms|
    ensures forall j | j in r :: j.line == line && j.md.Some? && line.sku.Some? && j.md.value.sku == line.sku
  {
    if |ms| == 0 then []
    else [JoinedOf(hasQuantity, md, line, Some(ms[0]))] + MatchedLines(hasQuantity, md, line, ms[1..])
  }

  /** `join_with_masterdata`: the join rows of every order line, in order. */
  function JoinAll(hasQuantity: bool, md: MdTable, lines: seq<OrderLine>): (r: seq<JoinedLine>)
    ensures |r| >= |lines|
    ensures forall j | j in r :: j.line in lines
    ensures forall l | l in lines :: exists j | j in r :: j.line == l
  {
    if |lines| == 0 then []
    else
      var head := JoinLine(hasQuantity, md, lines[0]);
      var rest := JoinAll(hasQuantity, md, lines[1..]);
      assert head[0] in head + rest;
      assert forall l | l in lines :: l == lines[0] || l in lines[1..];
      head + rest
  }

  /** No two masterdata entries share a non-null SKU. */
  predicate UniqueSkus(md: MdTable)
  {
    forall i, j :: 0 <= i < j < |md.entries| ==> md.entries[i].sku.None? || md.entries[i].sku != md.entries[j].sku
  }

  lemma AtMostOneMatch(md: MdTable, c: Option<string>)
    requires UniqueSkus(md)
    ensures |Matches(md, c)| <= 1
  {
    if c.Some? {
      Seqs.CountAtMostOne(md.entries, EntryFor(c));
    }
  }

  lemma JoinAllCons(hasQuantity: bool, md: MdTable, lines: seq<OrderLine>)
    requires |lines| > 0
    ensures JoinAll(hasQuantity, md, lines) == JoinLine(hasQuantity, md, lines[0]) + JoinAll(hasQuantity, md, lines[1..])
  {
  }

  lemma SingleJoin(hasQuantity: bool, md: MdTable, line: OrderLine)
    requires UniqueSkus(md)
    ensures var r := JoinLine(hasQuantity, md, line); |r| == 1 && r[0].line == line
  {
    AtMostOneMatch(md, line.sku);
    var r := JoinLine(hasQuantity, md, line);
    assert r[0] in r;
  }

  /** Against masterdata with unique SKUs the join keeps one row per
      order line, in order. */
  lemma {:induction false} JoinKeepsLines(hasQuantity: bool, md: MdTable, lines: seq<OrderLine>)
    requires UniqueSkus(md)
    ensures |JoinAll(hasQuantity, md, lines)| == |lines|
    ensures forall i :: 0 <= i < |lines| ==> JoinAll(hasQuantity, md, lines)[i].line == lines[i]
  {
    if |lines| > 0 {
      JoinKeepsLines(hasQuantity, md, lines[1..]);
      var head := JoinLine(hasQuantity, md, lines[0]);
      var rest := JoinAll(hasQuantity, md, lines[1..]);
      SingleJoin(hasQuantity, md, lines[0]);
      JoinAllCons(hasQuantity, md, lines);
      ConsKeeps(head, rest, lines);
    }
  }

  lemma ConsKeeps(head: seq<JoinedLine>, rest: seq<JoinedLine>, lines: seq<OrderLine>)
    requires |lines| > 0 && |head| == 1 && head[0].line == lines[0]
    requires |rest| == |lines| - 1 && forall i :: 0 <= i < |rest| ==> rest[i].line == lines[i + 1]
    ensures forall i :: 0 <= i < |lines| ==> (head + rest)[i].line == lines[i]
  {
  }

  // ---------------------------------------------------------------------
  // Statistics
  // ---------------------------------------------------------------------

  datatype OrderStats = OrderStats(
    totalLines: nat,
    totalOrders: nat,
    totalUnits: int,
    uniqueSku: nat,
    dateFrom: Option<int>,
    dateTo: Option<int>,
    avgLinesPerOrder: Option<real>,
    avgUnitsPerLine: Option<real>)

  function OrderIds(lines: seq<OrderLine>): (r: seq<Option<string>>)
    ensures |r| == |lines| && forall i :: 0 <= i < |lines| ==> r[i] == lines[i].orderId
  {
    seq(|lines|, i requires 0 <= i < |lines| => lines[i].orderId)
  }

  function SkusOf(lines: seq<OrderLine>): (r: seq<Option<string>>)
    ensures |r| == |lines| && forall i :: 0 <= i < |lines| ==> r[i] == lines[i].sku
  {
    seq(|lines|, i requires 0 <= i < |lines| => lines[i].sku)
  }

  function Qty(l: OrderLine): real
  {
    if l.quantity.Some? then l.quantity.value as real else 0.0
  }

  /** `quantity.sum()`: nulls are skipped. */
  function TotalUnits(lines: seq<OrderLine>): (n: int)
    ensures n as real == Seqs.Sum(lines, Qty)
    ensures (forall i :: 0 <= i < |lines| ==> lines[i].quantity.None? || lines[i].quantity.value >= 0) ==> n >= 0
  {
    if |lines| == 0 then 0
    else (if lines[0].quantity.Some? then lines[0].quantity.value else 0) + TotalUnits(lines[1..])
  }

  /** `timestamp.min()`: the least non-null timestamp, null when there is none. */
  function EarliestTimestamp(lines: seq<OrderLine>): (t: Option<int>)
    ensures t.None? <==> forall i :: 0 <= i < |lines| ==> lines[i].timestamp.None?
    ensures t.Some? ==> (exists i :: 0 <= i < |lines| && lines[i].timestamp == t)
    ensures t.Some? ==> forall i :: 0 <= i < |lines| && lines[i].timestamp.Some? ==> t.value <= lines[i].timestamp.value
  {
    if |lines| == 0 then None
    else
      var rest := EarliestTimestamp(lines[1..]);
      assert forall i :: 1 <= i < |lines| ==> lines[i] == lines[1..][i - 1];
      var here := lines[0].timestamp;
      if here.None? then rest
      else if rest.None? || here.value <= rest.value then here
      else rest
  }

  /** `timestamp.max()`. */
  function LatestTimestamp(lines: seq<OrderLine>): (t: Option<int>)
    ensures t.None? <==> forall i :: 0 <= i < |lines| ==> lines[i].timestamp.None?
    ensures t.Some? ==> (exists i :: 0 <= i < |lines| && lines[i].timestamp == t)
    ensures t.Some? ==> forall i :: 0 <= i < |lines| && lines[i].timestamp.Some? ==> lines[i].timestamp.value <= t.value
  {
    if |lines| == 0 then None
    else
      var rest := LatestTimestamp(lines[1..]);
      assert forall i :: 1 <= i < |lines| ==> lines[i] == lines[1..][i - 1];
      var here := lines[0].timestamp;
      if here.None? then rest
      else if rest.None? || here.value >= rest.value then here
      else rest
  }

  /** `calculate_stats`: order and SKU counts are `n_unique` (null counts
      as a value) and 0 without the column; the dates exist only with a
      timestamp column; each average exists only when its denominator is
      positive. */
  function CalculateStats(columns: set<OrderColumn>, lines: seq<OrderLine>): (s: OrderStats)
    ensures s.totalLines == |lines|
    ensures s.totalOrders == NUnique(OrderId in columns, OrderIds(lines))
    ensures s.uniqueSku == NUnique(OrderSku in columns, SkusOf(lines))
    ensures s.totalUnits as real == (if Quantity in columns then Seqs.Sum(lines, Qty) else 0.0)
    ensures Timestamp !in columns ==> s.dateFrom.None? && s.dateTo.None?
    ensures s.dateFrom.Some? ==> s.dateTo.Some? && s.dateFrom.value <= s.dateTo.value
    ensures s.totalOrders <= s.totalLines
    ensures s.avgLinesPerOrder == (if s.totalOrders > 0 then Some(Ratio(s.totalLines, s.totalOrders)) else None)
    ensures s.avgUnitsPerLine == (if s.totalLines > 0 then Some(Average(s.totalUnits, s.totalLines)) else None)
  {
    var total := |lines|;
    var ids := OrderIds(lines);
    var orders := NUnique(OrderId in columns, ids);
    assert orders <= total;
    var units := UnitsOf(Quantity in columns, lines);
    var dates := DateRange(Timestamp in columns, lines);
    OrderStats(total, orders, units, NUnique(OrderSku in columns, SkusOf(lines)), dates.0, dates.1,
      if orders > 0 then Some(Ratio(total, orders)) else None,
      if total > 0 then Some(Average(units, total)) else None)
  }

  /** `n_unique()` of a column, 0 when the column is absent: never more
      than the rows, and at least 1 when there is a row. */
  function NUnique(present: bool, cells: seq<Option<string>>): (n: nat)
    ensures n <= |cells|
    ensures !present ==> n == 0
    ensures present ==> n == |Seqs.Distinct(cells)|
    ensures present && |cells| > 0 ==> n >= 1
  {
    assert |cells| > 0 ==> cells[0] in Seqs.Distinct(cells);
    if present then |Seqs.Distinct(cells)| else 0
  }

  function UnitsOf(present: bool, lines: seq<OrderLine>): (n: int)
    ensures n as real == (if present then Seqs.Sum(lines, Qty) else 0.0)
  {
    if present then TotalUnits(lines) else 0
  }

  function Average(units: int, lines: nat): (r: real)
    requires lines > 0
    ensures r * lines as real == units as real
  {
    units as real / lines as real
  }

  /** `timestamp.min()` and `timestamp.max()`, absent without the column. */
  function DateRange(present: bool, lines: seq<OrderLine>): (r: (Option<int>, Option<int>))
    ensures !present ==> r == (None, None)
    ensures present ==> r == (EarliestTimestamp(lines), LatestTimestamp(lines))
    ensures r.0.Some? ==> r.1.Some? && r.0.value <= r.1.value
  {
    EarliestBeforeLatest(lines);
    if present then (EarliestTimestamp(lines), LatestTimestamp(lines)) else (None, None)
  }

  lemma EarliestBeforeLatest(lines: seq<OrderLine>)
    ensures EarliestTimestamp(lines).Some? ==>
      LatestTimestamp(lines).Some? && EarliestTimestamp(lines).value <= LatestTimestamp(lines).value
  {
    var from := EarliestTimestamp(lines);
    if from.Some? {
      var i :| 0 <= i < |lines| && lines[i].timestamp == from;
    }
  }

  /** `total_lines / total_orders`, at least 1 since no order has no line. */
  function Ratio(lines: nat, orders: nat): (r: real)
    requires 0 < orders <= lines
    ensures r >= 1.0 && r * orders as real == lines as real
  {
    var r := lines as real / orders as real;
    assert (lines as real - orders as real) / orders as real >= 0.0;
    r
  }

  // ---------------------------------------------------------------------
  // Processing
  // ---------------------------------------------------------------------

  datatype OrdersResult = OrdersResult(
    lines: seq<OrderLine>,
    joined: Option<seq<JoinedLine>>,
    stats: OrderStats,
    unmatchedSku: set<Option<string>>)

  function OrderSkuSet(o: OrdersFrame): set<Option<string>>
  {
    set l | l in o.lines :: l.sku
  }

  function MdSkuSet(md: MdTable): set<Option<string>>
  {
    set e | e in md.entries :: e.sku
  }

  /** `process`: with masterdata, both frames need their SKU column; the
      unmatched SKUs are the order SKUs (null included) the masterdata
      lacks, and the statistics are taken over the joined rows. */
  function Process(o: OrdersFrame, md: Option<MdTable>): (r: Result<OrdersResult>)
    ensures r.Err? <==> md.Some? && (OrderSku !in o.columns || !md.value.hasSku)
    ensures r.Ok? && md.None? ==> r.value.unmatchedSku == {} && r.value.joined.None? && r.value.lines == o.lines
    ensures r.Ok? && md.Some? ==>
      forall c :: c in r.value.unmatchedSku <==> (exists l | l in o.lines :: l.sku == c) && forall e | e in md.value.entries :: e.sku != c
    ensures r.Ok? && md.Some? ==> r.value.joined.Some? && |r.value.lines| == |r.value.joined.value| >= |o.lines|
    ensures r.Ok? ==> r.value.stats == CalculateStats(o.columns, r.value.lines)
  {
    if md.None? then
      Ok(OrdersResult(o.lines, None, CalculateStats(o.columns, o.lines), {}))
    else if OrderSku !in o.columns || !md.value.hasSku then Err("column sku not found")
    else
      var joined := JoinAll(Quantity in o.columns, md.value, o.lines);
      var lines := seq(|joined|, i requires 0 <= i < |joined| => joined[i].line);
      Ok(OrdersResult(lines, Some(joined), CalculateStats(o.columns, lines), OrderSkuSet(o) - MdSkuSet(md.value)))
  }

  /** A line whose SKU is unmatched joins to null masterdata columns. */
  lemma UnmatchedLinesHaveNoMasterdata(hasQuantity: bool, md: MdTable, line: OrderLine)
    requires forall e | e in md.entries :: e.sku != line.sku
    ensures JoinLine(hasQuantity, md, line) == [JoinedOf(hasQuantity, md, line, None)]
  {
    if line.sku.Some? {
      assert Seqs.Count(md.entries, EntryFor(line.sku)) == 0;
    }
  }
}
