/** Unit detection and conversion of the dimension and weight columns to
    millimetres and kilograms. */
module Units {
  import opened Wrappers
  import opened Ascii
  import Sorting
  import Frame

  datatype LengthUnit = Mm | Cm | M | Inch
  datatype WeightUnit = Kg | G | Lb

  /** Millimetres per unit. Millimetres are the only unit left as they are. */
  function LengthToMm(u: LengthUnit): (f: real)
    ensures f > 0.0 && (f == 1.0 <==> u == Mm)
  {
    match u
    case Mm => 1.0
    case Cm => 10.0
    case M => 1000.0
    case Inch => 25.4
  }

  /** Kilograms per unit. Kilograms are the only unit left as they are. */
  function WeightToKg(u: WeightUnit): (f: real)
    ensures f > 0.0 && (f == 1.0 <==> u == Kg)
  {
    match u
    case Kg => 1.0
    case G => 0.001
    case Lb => 0.453592
  }

  datatype Detection<U> = Detection(unit: U, confidence: real, sampleValues: seq<real>, convertedValues: seq<real>)

  /** The values that are present and positive, in order. */
  function Clean(values: seq<Option<real>>): (r: seq<real>)
    ensures |r| <= |values|
    ensures forall i :: 0 <= i < |r| ==> r[i] > 0.0
    ensures forall v :: v in r <==> Some(v) in values && v > 0.0
  {
    if |values| == 0 then []
    else
      var rest := Clean(values[1..]);
      assert forall x :: x in values <==> x == values[0] || x in values[1..];
      if values[0].Some? && values[0].value > 0.0 then [values[0].value] + rest else rest
  }

  /** Python `s[:n]`. */
  function Take<T>(s: seq<T>, n: nat): (r: seq<T>)
    ensures |r| == if |s| <= n then |s| else n
    ensures r == s[..|r|]
  {
    if |s| <= n then s else s[..n]
  }

  function Scale(vs: seq<real>, factor: real): (r: seq<real>)
    ensures |r| == |vs| && forall i :: 0 <= i < |vs| ==> r[i] == vs[i] * factor
  {
    seq(|vs|, i requires 0 <= i < |vs| => vs[i] * factor)
  }

  function Neg(x: real): real
  {
    -x
  }

  /** `sorted(values)`: ascending, with the same elements. */
  function Ascending(vs: seq<real>): (a: seq<real>)
    ensures multiset(a) == multiset(vs) && |a| == |vs|
    ensures forall i, j :: 0 <= i <= j < |a| ==> a[i] <= a[j]
  {
    var a := Sorting.SortDesc(vs, Neg);
    assert forall i, j :: 0 <= i <= j < |a| ==> Neg(a[i]) >= Neg(a[j]);
    a
  }

  /** `sorted(values)[len(values) // 2]`: the upper median. */
  function UpperMedian(vs: seq<real>): (m: real)
    requires |vs| > 0
    ensures m in vs
    ensures var a := Ascending(vs);
      (forall i :: 0 <= i <= |a| / 2 ==> a[i] <= m) && (forall i :: |a| / 2 <= i < |a| ==> m <= a[i])
  {
    var a := Ascending(vs);
    assert a[|a| / 2] in multiset(vs);
    a[|a| / 2]
  }

  function MaxOf(vs: seq<real>): (m: real)
    requires |vs| > 0
    ensures m in vs && forall v | v in vs :: v <= m
  {
    if |vs| == 1 then vs[0]
    else
      var rest := MaxOf(vs[1..]);
      assert forall x :: x in vs <==> x == vs[0] || x in vs[1..];
      if vs[0] > rest then vs[0] else rest
  }

  predicate MmHint(n: string) { Contains(n, "_mm") || Contains(n, "(mm)") || EndsWith(n, "mm") }
  predicate CmHint(n: string) { Contains(n, "_cm") || Contains(n, "(cm)") || EndsWith(n, "cm") }
  predicate MHint(n: string) { Contains(n, "_m") || Contains(n, "(m)") }
  predicate InchHint(n: string) { Contains(n, "inch") || Contains(n, "in") }
  predicate KgHint(n: string) { Contains(n, "_kg") || Contains(n, "(kg)") || EndsWith(n, "kg") }
  predicate GHint(n: string) { Contains(n, "_g") || Contains(n, "(g)") || EndsWith(n, "g") }
  predicate LbHint(n: string) { Contains(n, "lb") || Contains(n, "pound") }

  /** `_detect_unit_from_name(..., "length")`: the hints are tried in the
      order mm, cm, m, inch on the lower-cased name. */
  function LengthFromName(name: string): (r: Option<LengthUnit>)
    ensures var n := Lower(name);
      (MmHint(n) ==> r == Some(Mm)) &&
      (r == Some(Cm) <==> !MmHint(n) && CmHint(n)) &&
      (r == Some(M) <==> !MmHint(n) && !CmHint(n) && MHint(n)) &&
      (r == Some(Inch) <==> !MmHint(n) && !CmHint(n) && !MHint(n) && InchHint(n)) &&
      (r.None? <==> !MmHint(n) && !CmHint(n) && !MHint(n) && !InchHint(n))
  {
    var n := Lower(name);
    if MmHint(n) then Some(Mm)
    else if CmHint(n) then Some(Cm)
    else if MHint(n) then Some(M)
    else if InchHint(n) then Some(Inch)
    else None
  }

  /** `_detect_unit_from_name(..., "weight")`: kg, then g, then lb. */
  function WeightFromName(name: string): (r: Option<WeightUnit>)
    ensures var n := Lower(name);
      (KgHint(n) ==> r == Some(Kg)) &&
      (r == Some(G) <==> !KgHint(n) && GHint(n)) &&
      (r == Some(Lb) <==> !KgHint(n) && !GHint(n) && LbHint(n)) &&
      (r.None? <==> !KgHint(n) && !GHint(n) && !LbHint(n))
  {
    var n := Lower(name);
    if KgHint(n) then Some(Kg)
    else if GHint(n) then Some(G)
    else if LbHint(n) then Some(Lb)
    else None
  }

  /** A column name is consulted only when it is given and not empty. */
  predicate Named(columnName: Option<string>)
  {
    columnName.Some? && columnName.value != ""
  }

  /** `detect_length_unit`. */
  function DetectLengthUnit(values: seq<Option<real>>, columnName: Option<string>): (d: Detection<LengthUnit>)
    ensures Clean(values) == [] ==> d == Detection(Mm, 0.0, [], [])
    ensures Clean(values) != [] ==> d.sampleValues == Take(Clean(values), 10)
    ensures d.convertedValues == Scale(d.sampleValues, LengthToMm(d.unit))
    ensures Clean(values) != [] && Named(columnName) && LengthFromName(columnName.value).Some? ==>
      d.unit == LengthFromName(columnName.value).value && d.confidence == 0.9
    ensures Clean(values) != [] && !(Named(columnName) && LengthFromName(columnName.value).Some?) ==>
      var median := UpperMedian(Clean(values));
      var top := MaxOf(Clean(values));
      (d.unit == M <==> median < 5.0) &&
      (d.unit == Cm <==> 5.0 <= median < 100.0 && top < 500.0) &&
      (d.unit == Mm <==> median >= 5.0 && !(median < 100.0 && top < 500.0)) &&
      (d.unit == M ==> d.confidence == 0.7) &&
      (d.unit == Cm ==> d.confidence == 0.75) &&
      (d.unit == Mm ==> d.confidence == 0.8)
  {
    var clean := Clean(values);
    if clean == [] then Detection(Mm, 0.0, [], [])
    else
      var sample := Take(clean, 10);
      var hint := if Named(columnName) then LengthFromName(columnName.value) else None;
      if hint.Some? then Detection(hint.value, 0.9, sample, Scale(sample, LengthToMm(hint.value)))
      else
        var median := UpperMedian(clean);
        var top := MaxOf(clean);
        var unit := if median < 5.0 then M else if median < 100.0 && top < 500.0 then Cm else Mm;
        var confidence := if median < 5.0 then 0.7 else if median < 100.0 && top < 500.0 then 0.75 else 0.8;
        Detection(unit, confidence, sample, Scale(sample, LengthToMm(unit)))
  }

  /** `detect_weight_unit`. */
  function DetectWeightUnit(values: seq<Option<real>>, columnName: Option<string>): (d: Detection<WeightUnit>)
    ensures Clean(values) == [] ==> d == Detection(Kg, 0.0, [], [])
    ensures Clean(values) != [] ==> d.sampleValues == Take(Clean(values), 10)
    ensures d.convertedValues == Scale(d.sampleValues, WeightToKg(d.unit))
    ensures Clean(values) != [] && Named(columnName) && WeightFromName(columnName.value).Some? ==>
      d.unit == WeightFromName(columnName.value).value && d.confidence == 0.9
    ensures Clean(values) != [] && !(Named(columnName) && WeightFromName(columnName.value).Some?) ==>
      (d.unit == G <==> UpperMedian(Clean(values)) > 500.0) &&
      (d.unit == Kg <==> UpperMedian(Clean(values)) <= 500.0) &&
      (d.unit == G ==> d.confidence == 0.8) &&
      (d.unit == Kg ==> d.confidence == 0.85)
  {
    var clean := Clean(values);
    if clean == [] then Detection(Kg, 0.0, [], [])
    else
      var sample := Take(clean, 10);
      var hint := if Named(columnName) then WeightFromName(columnName.value) else None;
      if hint.Some? then Detection(hint.value, 0.9, sample, Scale(sample, WeightToKg(hint.value)))
      else if UpperMedian(clean) > 500.0 then Detection(G, 0.8, sample, Scale(sample, WeightToKg(G)))
      else Detection(Kg, 0.85, sample, Scale(sample, WeightToKg(Kg)))
  }

  /** Values all below 5 read as metres when the name gives no hint. */
  lemma SmallValuesAreMetres(values: seq<Option<real>>)
    requires Clean(values) != [] && forall v | v in Clean(values) :: v < 5.0
    ensures DetectLengthUnit(values, None).unit == M
  {
    assert UpperMedian(Clean(values)) in Clean(values);
  }

  /** Values all in [5, 100) read as centimetres. */
  lemma MidValuesAreCentimetres(values: seq<Option<real>>)
    requires Clean(values) != [] && forall v | v in Clean(values) :: 5.0 <= v < 100.0
    ensures DetectLengthUnit(values, None).unit == Cm
  {
    assert UpperMedian(Clean(values)) in Clean(values);
    assert MaxOf(Clean(values)) in Clean(values);
  }

  /** Values all at least 100 read as millimetres. */
  lemma LargeValuesAreMillimetres(values: seq<Option<real>>)
    requires Clean(values) != [] && forall v | v in Clean(values) :: v >= 100.0
    ensures DetectLengthUnit(values, None).unit == Mm
  {
    assert UpperMedian(Clean(values)) in Clean(values);
  }

  /** Weights all above 500 read as grams, all at most 500 as kilograms. */
  lemma WeightByMagnitude(values: seq<Option<real>>)
    requires Clean(values) != []
    ensures (forall v | v in Clean(values) :: v > 500.0) ==> DetectWeightUnit(values, None).unit == G
    ensures (forall v | v in Clean(values) :: v <= 500.0) ==> DetectWeightUnit(values, None).unit == Kg
  {
    assert UpperMedian(Clean(values)) in Clean(values);
  }

  lemma SuffixHints()
    ensures LengthFromName("length_mm") == Some(Mm)
    ensures WeightFromName("weight_kg") == Some(Kg)
  {
    LowerKeeps("length_mm");
    assert EndsWith("length_mm", "mm");
    LowerKeeps("weight_kg");
    assert EndsWith("weight_kg", "kg");
  }

  /** A unit suffix in the name wins over whatever the values suggest. */
  lemma NameHintWins(values: seq<Option<real>>)
    requires Clean(values) != []
    ensures var d := DetectLengthUnit(values, Some("length_mm"));
      d.unit == Mm && d.confidence == 0.9
    ensures var d := DetectWeightUnit(values, Some("weight_kg"));
      d.unit == Kg && d.confidence == 0.9
  {
    SuffixHints();
  }

  /** The substring rules also fire inside words: a name without `_` or
      `(` that contains `in` anywhere (`width min`, `thickness inner`)
      reads as inches unless it ends in `mm` or `cm`. */
  lemma InsideWordReadsAsInches(name: string)
    requires var n := Lower(name);
      '_' !in n && '(' !in n && !EndsWith(n, "mm") && !EndsWith(n, "cm") && Contains(n, "in")
    ensures LengthFromName(name) == Some(Inch)
  {
    var n := Lower(name);
    FirstCharAbsent(n, "_mm");
    FirstCharAbsent(n, "(mm)");
    FirstCharAbsent(n, "_cm");
    FirstCharAbsent(n, "(cm)");
    FirstCharAbsent(n, "_m");
    FirstCharAbsent(n, "(m)");
  }

  /** Likewise a name without `_` or `(` ending in `g` but not `kg`
      (`weight packing`) reads as grams. */
  lemma TrailingGReadsAsGrams(name: string)
    requires var n := Lower(name);
      '_' !in n && '(' !in n && !EndsWith(n, "kg") && EndsWith(n, "g")
    ensures WeightFromName(name) == Some(G)
  {
    var n := Lower(name);
    FirstCharAbsent(n, "_kg");
    FirstCharAbsent(n, "(kg)");
  }

  /** The scaled cell: a null stays null. */
  function ScaleCell(v: Option<real>, factor: real): Option<real>
  {
    match v
    case None => None
    case Some(x) => Some(x * factor)
  }

  /** The present cells of a column, in order (`drop_nulls().to_list()`). */
  function Present(cells: seq<Option<real>>): (r: seq<Option<real>>)
    ensures forall i :: 0 <= i < |r| ==> r[i].Some?
    ensures forall v :: Some(v) in r <==> Some(v) in cells
    ensures |r| <= |cells|
  {
    if |cells| == 0 then []
    else
      var rest := Present(cells[1..]);
      assert forall x :: x in cells <==> x == cells[0] || x in cells[1..];
      if cells[0].Some? then [cells[0]] + rest else rest
  }

  function Column(rows: seq<Frame.MdRow>, f: Frame.Field): (r: seq<Option<real>>)
    ensures |r| == |rows| && forall i :: 0 <= i < |rows| ==> r[i] == Frame.Num(rows[i], f)
  {
    seq(|rows|, i requires 0 <= i < |rows| => Frame.Num(rows[i], f))
  }

  /** The unit `convert_dimensions_to_mm` converts from: the explicit unit,
      else the unit detected on the first 100 present length cells, with the
      caller's name of the length column as the hint, else millimetres. */
  function DimensionUnit(rows: seq<Frame.MdRow>, lengthCol: string, autoDetect: bool,
                         sourceUnit: Option<LengthUnit>): (u: LengthUnit)
    ensures sourceUnit.Some? ==> u == sourceUnit.value
    ensures sourceUnit.None? && !autoDetect ==> u == Mm
    ensures sourceUnit.None? && autoDetect ==>
      u == DetectLengthUnit(Take(Present(Column(rows, Frame.Length)), 100), Some(lengthCol)).unit
  {
    match sourceUnit
    case Some(x) => x
    case None =>
      if autoDetect then DetectLengthUnit(Take(Present(Column(rows, Frame.Length)), 100), Some(lengthCol)).unit
      else Mm
  }

  /** The unit `convert_weight_to_kg` converts from, with the caller's name
      of the weight column as the hint. */
  function WeightUnitOf(rows: seq<Frame.MdRow>, weightCol: string, autoDetect: bool,
                        sourceUnit: Option<WeightUnit>): (u: WeightUnit)
    ensures sourceUnit.Some? ==> u == sourceUnit.value
    ensures sourceUnit.None? && !autoDetect ==> u == Kg
    ensures sourceUnit.None? && autoDetect ==>
      u == DetectWeightUnit(Take(Present(Column(rows, Frame.Weight)), 100), Some(weightCol)).unit
  {
    match sourceUnit
    case Some(x) => x
    case None =>
      if autoDetect then DetectWeightUnit(Take(Present(Column(rows, Frame.Weight)), 100), Some(weightCol)).unit
      else Kg
  }

  function ScaleDims(r: Frame.MdRow, factor: real): (s: Frame.MdRow)
    ensures s == r.(length := ScaleCell(r.length, factor), width := ScaleCell(r.width, factor),
                    height := ScaleCell(r.height, factor))
  {
    r.(length := ScaleCell(r.length, factor), width := ScaleCell(r.width, factor), height := ScaleCell(r.height, factor))
  }

  /** `convert_dimensions_to_mm`: length, width and height of every row are
      scaled by the same factor; nothing else changes, and millimetres leave
      the frame as it is. */
  function ConvertDimensionsToMm(f: Frame.MdFrame, lengthCol: string, autoDetect: bool,
                                 sourceUnit: Option<LengthUnit>): (r: Frame.MdFrame)
    requires Frame.Length in f.columns && Frame.Width in f.columns && Frame.Height in f.columns
    ensures var factor := LengthToMm(DimensionUnit(f.rows, lengthCol, autoDetect, sourceUnit));
      r.columns == f.columns && r.flagColumns == f.flagColumns && |r.rows| == |f.rows| &&
      forall i :: 0 <= i < |f.rows| ==>
        r.rows[i].length == ScaleCell(f.rows[i].length, factor) &&
        r.rows[i].width == ScaleCell(f.rows[i].width, factor) &&
        r.rows[i].height == ScaleCell(f.rows[i].height, factor) &&
        r.rows[i].(length := f.rows[i].length, width := f.rows[i].width, height := f.rows[i].height) == f.rows[i]
    ensures DimensionUnit(f.rows, lengthCol, autoDetect, sourceUnit) == Mm ==> r == f
  {
    var factor := LengthToMm(DimensionUnit(f.rows, lengthCol, autoDetect, sourceUnit));
    if factor == 1.0 then f
    else f.(rows := seq(|f.rows|, i requires 0 <= i < |f.rows| => ScaleDims(f.rows[i], factor)))
  }

  function ScaleWeight(r: Frame.MdRow, factor: real): (s: Frame.MdRow)
    ensures s == r.(weight := ScaleCell(r.weight, factor))
  {
    r.(weight := ScaleCell(r.weight, factor))
  }

  /** `convert_weight_to_kg`: the weight of every row is scaled; kilograms
      leave the frame as it is. */
  function ConvertWeightToKg(f: Frame.MdFrame, weightCol: string, autoDetect: bool,
                             sourceUnit: Option<WeightUnit>): (r: Frame.MdFrame)
    requires Frame.Weight in f.columns
    ensures var factor := WeightToKg(WeightUnitOf(f.rows, weightCol, autoDetect, sourceUnit));
      r.columns == f.columns && r.flagColumns == f.flagColumns && |r.rows| == |f.rows| &&
      forall i :: 0 <= i < |f.rows| ==>
        r.rows[i].weight == ScaleCell(f.rows[i].weight, factor) &&
        r.rows[i].(weight := f.rows[i].weight) == f.rows[i]
    ensures WeightUnitOf(f.rows, weightCol, autoDetect, sourceUnit) == Kg ==> r == f
  {
    var factor := WeightToKg(WeightUnitOf(f.rows, weightCol, autoDetect, sourceUnit));
    if factor == 1.0 then f
    else f.(rows := seq(|f.rows|, i requires 0 <= i < |f.rows| => ScaleWeight(f.rows[i], factor)))
  }

  /** Converting twice from an explicit unit compounds the factors; in
      particular converting millimetres again changes nothing. */
  lemma ConvertedFrameIsStable(f: Frame.MdFrame, lengthCol: string, u: LengthUnit)
    requires Frame.Length in f.columns && Frame.Width in f.columns && Frame.Height in f.columns
    ensures var once := ConvertDimensionsToMm(f, lengthCol, false, Some(u));
      ConvertDimensionsToMm(once, lengthCol, false, Some(Mm)) == once
  {
  }

  /** A lower-case name with no `_`, `(` or `i` that does not end in `mm`
      or `cm` carries no length hint. */
  lemma NoLengthHint(n: string)
    requires forall k :: 0 <= k < |n| ==> !IsUpper(n[k])
    requires '_' !in n && '(' !in n && 'i' !in n && !EndsWith(n, "mm") && !EndsWith(n, "cm")
    ensures LengthFromName(n).None?
  {
    LowerKeeps(n);
    FirstCharAbsent(n, "_mm");
    FirstCharAbsent(n, "(mm)");
    FirstCharAbsent(n, "_cm");
    FirstCharAbsent(n, "(cm)");
    FirstCharAbsent(n, "_m");
    FirstCharAbsent(n, "(m)");
    FirstCharAbsent(n, "inch");
    FirstCharAbsent(n, "in");
  }

  /** A lower-case name with no `_`, `(`, `l` or `p` that does not end in
      `g` carries no weight hint. */
  lemma NoWeightHint(n: string)
    requires forall k :: 0 <= k < |n| ==> !IsUpper(n[k])
    requires '_' !in n && '(' !in n && 'l' !in n && 'p' !in n && !EndsWith(n, "g")
    ensures WeightFromName(n).None?
  {
    LowerKeeps(n);
    FirstCharAbsent(n, "_kg");
    FirstCharAbsent(n, "(kg)");
    FirstCharAbsent(n, "_g");
    FirstCharAbsent(n, "(g)");
    FirstCharAbsent(n, "lb");
    FirstCharAbsent(n, "pound");
  }

  /** The plain name the ingest pipeline passes for the length column,
      `length`, carries no unit hint, so the values decide. */
  lemma LengthNameHasNoHint(lengthCol: string)
    requires lengthCol == "length"
    ensures LengthFromName(lengthCol).None?
  {
    assert lengthCol[4..] == "th";
    NoLengthHint(lengthCol);
  }

  /** Likewise `weight` carries no weight hint. */
  lemma WeightNameHasNoHint(weightCol: string)
    requires weightCol == "weight"
    ensures WeightFromName(weightCol).None?
  {
    assert weightCol[5..] == "t";
    NoWeightHint(weightCol);
  }

  /** The sample `convert_*` detects on is non-empty when some cell of the
      column is present, and each of its values is a present cell. */
  lemma SampleOf(rows: seq<Frame.MdRow>, g: Frame.Field, i: nat)
    requires i < |rows| && Frame.Num(rows[i], g).Some?
    ensures var sample := Take(Present(Column(rows, g)), 100);
      |sample| > 0 && sample[0].Some? && Some(sample[0].value) in Column(rows, g)
    ensures forall v | Some(v) in Take(Present(Column(rows, g)), 100) ::
      exists j :: 0 <= j < |rows| && Frame.Num(rows[j], g) == Some(v)
  {
    var col := Column(rows, g);
    var p := Present(col);
    var sample := Take(p, 100);
    assert col[i] == Some(Frame.Num(rows[i], g).value);
    assert Some(Frame.Num(rows[i], g).value) in p;
    assert sample[0] == p[0] && p[0] in p;
    forall v | Some(v) in sample
      ensures exists j :: 0 <= j < |rows| && Frame.Num(rows[j], g) == Some(v)
    {
      var k :| 0 <= k < |sample| && sample[k] == Some(v);
      assert p[k] in p;
      var j :| 0 <= j < |col| && col[j] == Some(v);
    }
  }

  /** A length column whose name carries no hint (`length`, as the ingest
      pipeline names it) and whose present values all lie in (0, 5) is read
      as metres. */
  lemma PlainMetreUnit(rows: seq<Frame.MdRow>, lengthCol: string, i: nat)
    requires LengthFromName(lengthCol).None?
    requires i < |rows| && rows[i].length.Some?
    requires forall j :: 0 <= j < |rows| && rows[j].length.Some? ==> 0.0 < rows[j].length.value < 5.0
    ensures DimensionUnit(rows, lengthCol, true, None) == M
  {
    var sample := Take(Present(Column(rows, Frame.Length)), 100);
    SampleOf(rows, Frame.Length, i);
    assert sample[0].value in Clean(sample);
    forall v | v in Clean(sample)
      ensures v < 5.0
    {
      var j :| 0 <= j < |rows| && Frame.Num(rows[j], Frame.Length) == Some(v);
    }
    SmallValuesAreMetres(sample);
  }

  /** Such a column has length, width and height multiplied by 1000. */
  lemma PlainMetreColumnScaled(f: Frame.MdFrame, lengthCol: string, i: nat)
    requires LengthFromName(lengthCol).None?
    requires Frame.Length in f.columns && Frame.Width in f.columns && Frame.Height in f.columns
    requires i < |f.rows| && f.rows[i].length.Some?
    requires forall j :: 0 <= j < |f.rows| && f.rows[j].length.Some? ==> 0.0 < f.rows[j].length.value < 5.0
    ensures var r := ConvertDimensionsToMm(f, lengthCol, true, None);
      forall j :: 0 <= j < |f.rows| ==>
        r.rows[j].length == ScaleCell(f.rows[j].length, 1000.0) &&
        r.rows[j].width == ScaleCell(f.rows[j].width, 1000.0) &&
        r.rows[j].height == ScaleCell(f.rows[j].height, 1000.0)
  {
    PlainMetreUnit(f.rows, lengthCol, i);
  }

  /** A weight column whose name carries no hint (`weight`) and whose
      present values all exceed 500 is read as grams: every weight is multiplied by 0.001. */
  lemma PlainGramColumnScaled(f: Frame.MdFrame, weightCol: string, i: nat)
    requires WeightFromName(weightCol).None?
    requires Frame.Weight in f.columns
    requires i < |f.rows| && f.rows[i].weight.Some?
    requires forall j :: 0 <= j < |f.rows| && f.rows[j].weight.Some? ==> f.rows[j].weight.value > 500.0
    ensures WeightUnitOf(f.rows, weightCol, true, None) == G
    ensures var r := ConvertWeightToKg(f, weightCol, true, None);
      forall j :: 0 <= j < |f.rows| ==> r.rows[j].weight == ScaleCell(f.rows[j].weight, 0.001)
  {
    var sample := Take(Present(Column(f.rows, Frame.Weight)), 100);
    SampleOf(f.rows, Frame.Weight, i);
    assert sample[0].value in Clean(sample);
    forall v | v in Clean(sample)
      ensures v > 500.0
    {
      var j :| 0 <= j < |f.rows| && Frame.Num(f.rows[j], Frame.Weight) == Some(v);
    }
    WeightByMagnitude(sample);
  }
}
