/** Imputation of missing measurements with RAW/ESTIMATED flags
    (src/quality/impute.py). */
module Impute {
  import opened Wrappers
  import opened Frame
  import opened Types
  import Seqs
  import Sorting

  datatype Method = Median | Mean | Mode

  datatype Imputer = Imputer(how: Method, zeroAsMissing: bool)

  /** `impute_missing` and `Imputer()` default to the median with zero
      counted as missing. */
  const DefaultImputer := Imputer(Median, true)

  datatype ImputationStats = ImputationStats(
    fieldName: string, originalMissing: nat, imputedCount: nat, imputationValue: real, how: Method)

  datatype ImputationResult = ImputationResult(
    frame: MdFrame, stats: seq<ImputationStats>, totalImputed: nat, totalRecords: nat)

  /** `imputation_rate`: imputed cells per hundred records, 0 for an empty
      frame. */
  function ImputationRate(r: ImputationResult): (p: real)
    ensures r.totalRecords == 0 ==> p == 0.0
    ensures r.totalRecords > 0 ==> p * r.totalRecords as real == r.totalImputed as real * 100.0
    ensures p >= 0.0
  {
    if r.totalRecords == 0 then 0.0
    else r.totalImputed as real / r.totalRecords as real * 100.0
  }

  // ---------------------------------------------------------------------
  // The statistic
  // ---------------------------------------------------------------------

  function Id(x: real): real { x }

  /** `m` lies between two of the values. */
  predicate Between(vs: seq<real>, m: real)
  {
    exists a, b | a in vs && b in vs :: a <= m <= b
  }

  /** The values sorted largest first, with the extremes as members. */
  function Sorted(vs: seq<real>): (s: seq<real>)
    requires |vs| > 0
    ensures |s| == |vs| && Sorting.SortedDesc(s, Id)
    ensures s[0] in vs && s[|s| - 1] in vs
    ensures forall v | v in vs :: s[|s| - 1] <= v <= s[0]
  {
    var s := Sorting.SortDesc(vs, Id);
    SortedExtremes(s);
    SameMembers(s, vs);
    assert s[0] in s && s[|s| - 1] in s;
    s
  }

  lemma SameMembers(a: seq<real>, b: seq<real>)
    requires multiset(a) == multiset(b)
    ensures forall v :: v in a <==> v in b
  {
    forall v
      ensures v in a <==> v in b
    {
      assert v in a <==> v in multiset(a);
      assert v in b <==> v in multiset(b);
    }
  }

  lemma SortedExtremes(s: seq<real>)
    requires |s| > 0 && Sorting.SortedDesc(s, Id)
    ensures forall v | v in s :: s[|s| - 1] <= v <= s[0]
  {
    forall v | v in s
      ensures s[|s| - 1] <= v <= s[0]
    {
      var i :| 0 <= i < |s| && s[i] == v;
      assert Id(s[0]) >= Id(s[i]) >= Id(s[|s| - 1]);
    }
  }

  /** Polars' median: the middle value, or the mean of the two middle values
      of an even count. */
  function MedianOf(vs: seq<real>): (m: real)
    requires |vs| > 0
    ensures Between(vs, m)
  {
    var s := Sorted(vs);
    var n := |s|;
    var m := if n % 2 == 1 then s[n / 2] else (s[n / 2 - 1] + s[n / 2]) / 2.0;
    assert s[n - 1] <= m <= s[0] by {
      assert Id(s[0]) >= Id(s[n / 2]) >= Id(s[n - 1]);
      if n % 2 == 0 {
        assert Id(s[0]) >= Id(s[n / 2 - 1]) >= Id(s[n - 1]);
      }
    }
    m
  }

  lemma {:induction false} SumBounds(vs: seq<real>, lo: real, hi: real)
    requires forall v | v in vs :: lo <= v <= hi
    ensures Seqs.Scale(lo, |vs|) <= Seqs.Sum(vs, Id) <= Seqs.Scale(hi, |vs|)
  {
    if |vs| > 0 {
      assert forall v | v in vs[1..] :: v in vs;
      SumBounds(vs[1..], lo, hi);
      assert vs[0] in vs;
    }
  }

  /** The arithmetic mean. */
  /** `m` times the number of values is their sum. */
  predicate IsMean(vs: seq<real>, m: real)
  {
    m * |vs| as real == Seqs.Sum(vs, Id)
  }

  function MeanOf(vs: seq<real>): (m: real)
    requires |vs| > 0
    ensures Between(vs, m)
    ensures IsMean(vs, m)
  {
    MeanBetween(vs);
    Seqs.Sum(vs, Id) / |vs| as real
  }

  lemma MeanBetween(vs: seq<real>)
    requires |vs| > 0
    ensures Between(vs, Seqs.Sum(vs, Id) / |vs| as real)
  {
    var s := Sorted(vs);
    var lo, hi := s[|s| - 1], s[0];
    SumBounds(vs, lo, hi);
    ScaledBetween(Seqs.Sum(vs, Id), |vs|, lo, hi);
    BetweenOf(vs, lo, hi, Seqs.Sum(vs, Id) / |vs| as real);
  }

  lemma BetweenOf(vs: seq<real>, lo: real, hi: real, m: real)
    requires lo in vs && hi in vs && lo <= m <= hi
    ensures Between(vs, m)
  {
  }

  lemma ScaledBetween(total: real, n: nat, lo: real, hi: real)
    requires n > 0 && Seqs.Scale(lo, n) <= total <= Seqs.Scale(hi, n)
    ensures lo <= total / n as real <= hi
  {
    Seqs.ScaleIsProduct(lo, n);
    Seqs.ScaleIsProduct(hi, n);
    DivBetween(total, n as real, lo, hi);
  }

  lemma DivBetween(total: real, n: real, lo: real, hi: real)
    requires n > 0.0 && lo * n <= total <= hi * n
    ensures lo <= total / n <= hi
  {
    assert (total - lo * n) / n >= 0.0;
    assert (hi * n - total) / n >= 0.0;
  }

  /** A value of `cands` occurring most often in `vs`; the earliest one wins
      a tie. */
  function MostFrequent(cands: seq<real>, vs: seq<real>): (m: real)
    requires |cands| > 0
    ensures m in cands
    ensures forall c | c in cands :: Seqs.Occurrences(vs, c) <= Seqs.Occurrences(vs, m)
  {
    if |cands| == 1 then cands[0]
    else
      var rest := MostFrequent(cands[1..], vs);
      if Seqs.Occurrences(vs, cands[0]) >= Seqs.Occurrences(vs, rest) then cands[0] else rest
  }

  /** `mode()[0]`: a most frequent value. */
  function ModeOf(vs: seq<real>): (m: real)
    requires |vs| > 0
    ensures m in vs
    ensures forall v | v in vs :: Seqs.Occurrences(vs, v) <= Seqs.Occurrences(vs, m)
  {
    var d := Seqs.Distinct(vs);
    assert vs[0] in d;
    MostFrequent(d, vs)
  }

  /** `_calculate_imputation_value`. */
  function Statistic(how: Method, vs: seq<real>): (m: real)
    requires |vs| > 0
    ensures Between(vs, m)
  {
    match how
    case Median => MedianOf(vs)
    case Mean => MeanOf(vs)
    case Mode =>
      var m := ModeOf(vs);
      assert m <= m;
      m
  }

  // ---------------------------------------------------------------------
  // One field
  // ---------------------------------------------------------------------

  /** The missing mask: null, or also ≤ 0 when zero counts as missing. */
  function MissingOf(imp: Imputer): Option<real> -> bool
  {
    (v: Option<real>) => MissingCell(v, imp.zeroAsMissing)
  }

  function MissingCount(imp: Imputer, rows: seq<MdRow>, f: Field): nat
  {
    Seqs.Count(rows, At(f, MissingOf(imp)))
  }

  /** The values of the cells outside the mask, in row order. */
  function ValidValues(imp: Imputer, rows: seq<MdRow>, f: Field): (vs: seq<real>)
    ensures |vs| + MissingCount(imp, rows, f) == |rows|
    ensures forall v | v in vs :: !MissingCell(Some(v), imp.zeroAsMissing)
  {
    if |rows| == 0 then []
    else
      var c := Num(rows[0], f);
      var rest := ValidValues(imp, rows[1..], f);
      assert At(f, MissingOf(imp))(rows[0]) == MissingCell(c, imp.zeroAsMissing);
      if MissingCell(c, imp.zeroAsMissing) then rest else [c.value] + rest
  }

  /** A missing cell filled with `value` and flagged ESTIMATED. */
  function Fill(row: MdRow, f: Field, value: real): (r: MdRow)
    requires f != Sku
    ensures Num(r, f) == Some(value) && FlagOf(r, f) == Some(Estimated)
    ensures r.sku == row.sku
    ensures forall g | g != f :: Num(r, g) == Num(row, g) && FlagOf(r, g) == FlagOf(row, g)
  {
    SetNum(SetFlag(row, f, Some(Estimated)), f, Some(value))
  }

  function FillMissing(imp: Imputer, rows: seq<MdRow>, f: Field, value: real): (r: seq<MdRow>)
    requires f != Sku
    ensures |r| == |rows|
    ensures forall i :: 0 <= i < |rows| ==>
      r[i] == (if MissingCell(Num(rows[i], f), imp.zeroAsMissing) then Fill(rows[i], f, value) else rows[i])
  {
    seq(|rows|, i requires 0 <= i < |rows| =>
      if MissingCell(Num(rows[i], f), imp.zeroAsMissing) then Fill(rows[i], f, value) else rows[i])
  }

  /** `_impute_field`: nothing when no cell is missing or no cell is
      valid; otherwise every missing cell gets the statistic of the valid
      ones and the ESTIMATED flag, and every other cell stays. */
  function ImputeField(imp: Imputer, frame: MdFrame, f: Field): (r: (MdFrame, Option<ImputationStats>))
    requires f != Sku
    ensures r.0.columns == frame.columns && r.0.flagColumns == frame.flagColumns && |r.0.rows| == |frame.rows|
    ensures r.1.None? <==> MissingCount(imp, frame.rows, f) == 0 || MissingCount(imp, frame.rows, f) == |frame.rows|
    ensures r.1.None? ==> r.0 == frame
    ensures r.1.Some? ==>
      var st := r.1.value;
      st.fieldName == ColumnName(f) && st.how == imp.how &&
      st.originalMissing == MissingCount(imp, frame.rows, f) && st.imputedCount == st.originalMissing &&
      Between(ValidValues(imp, frame.rows, f), st.imputationValue) &&
      forall i :: 0 <= i < |frame.rows| ==>
        r.0.rows[i] == (if MissingCell(Num(frame.rows[i], f), imp.zeroAsMissing)
                        then Fill(frame.rows[i], f, st.imputationValue) else frame.rows[i])
  {
    var missing := MissingCount(imp, frame.rows, f);
    var valid := ValidValues(imp, frame.rows, f);
    if missing == 0 || |valid| == 0 then (frame, None)
    else
      var value := Statistic(imp.how, valid);
      (frame.(rows := FillMissing(imp, frame.rows, f, value)),
       Some(ImputationStats(ColumnName(f), missing, missing, value, imp.how)))
  }

  /** After imputing a field, none of its cells is missing: the statistic
      lies between two valid values, so it is itself valid. */
  lemma ImputeFieldLeavesNoMissing(imp: Imputer, frame: MdFrame, f: Field)
    requires f != Sku
    requires ImputeField(imp, frame, f).1.Some?
    ensures MissingCount(imp, ImputeField(imp, frame, f).0.rows, f) == 0
  {
    var r := ImputeField(imp, frame, f);
    var value := r.1.value.imputationValue;
    var vs := ValidValues(imp, frame.rows, f);
    var a, b :| a in vs && b in vs && a <= value <= b;
    assert !MissingCell(Some(a), imp.zeroAsMissing);
    assert !MissingCell(Some(value), imp.zeroAsMissing);
    forall i | 0 <= i < |r.0.rows|
      ensures !At(f, MissingOf(imp))(r.0.rows[i])
    {
      assert At(f, MissingOf(imp))(r.0.rows[i]) == MissingCell(Num(r.0.rows[i], f), imp.zeroAsMissing);
    }
  }

  /** Imputing a field leaves every other column and its flags as they were. */
  lemma ImputeFieldFrame(imp: Imputer, frame: MdFrame, f: Field, i: nat, g: Field)
    requires f != Sku && g != f && i < |frame.rows|
    ensures var row := ImputeField(imp, frame, f).0.rows[i];
      row.sku == frame.rows[i].sku && Num(row, g) == Num(frame.rows[i], g) && FlagOf(row, g) == FlagOf(frame.rows[i], g)
  {
  }

  // ---------------------------------------------------------------------
  // The whole frame
  // ---------------------------------------------------------------------

  /** The names `impute` works through when none are given: the
      imputable columns the frame has, in the order length, width,
      height, weight, stock. */
  function DefaultNames(frame: MdFrame): (names: seq<string>)
    ensures forall n | n in names :: ImputableField(frame, n).Some?
    ensures forall f | f in NumericFields && f in frame.columns :: ColumnName(f) in names
  {
    PresentNames(frame, NumericFields)
  }

  function PresentNames(frame: MdFrame, fs: seq<Field>): (names: seq<string>)
    requires Sku !in fs
    ensures forall n | n in names :: ImputableField(frame, n).Some?
    ensures forall f | f in fs && f in frame.columns :: ColumnName(f) in names
  {
    if |fs| == 0 then []
    else
      var rest := PresentNames(frame, fs[1..]);
      if fs[0] in frame.columns then [ColumnName(fs[0])] + rest else rest
  }

  /** The column a requested name imputes: an imputable column the frame
      has; the SKU column, unknown names and absent columns are skipped. */
  function ImputableField(frame: MdFrame, name: string): (f: Option<Field>)
    ensures f.Some? <==> exists g :: g != Sku && g in frame.columns && ColumnName(g) == name
    ensures f.Some? ==> f.value != Sku && f.value in frame.columns && ColumnName(f.value) == name
  {
    match FieldNamed(name)
    case Some(g) => if g != Sku && g in frame.columns then Some(g) else None
    case None => None
  }

  /** Adds the flag column of `f`, all RAW, when the frame has none. */
  function WithFlag(frame: MdFrame, f: Field): (r: MdFrame)
    requires f != Sku
    ensures r.columns == frame.columns && r.flagColumns == frame.flagColumns + {f} && |r.rows| == |frame.rows|
    ensures f !in frame.flagColumns ==> forall i :: 0 <= i < |r.rows| ==> FlagOf(r.rows[i], f) == Some(Raw)
    ensures f in frame.flagColumns ==> r == frame
    ensures forall i, g :: 0 <= i < |r.rows| && g != Sku ==> Num(r.rows[i], g) == Num(frame.rows[i], g)
    ensures forall i, g :: 0 <= i < |r.rows| && g != f ==> FlagOf(r.rows[i], g) == FlagOf(frame.rows[i], g)
    ensures forall i :: 0 <= i < |r.rows| ==> r.rows[i].sku == frame.rows[i].sku
  {
    if f in frame.flagColumns then frame
    else
      frame.(flagColumns := frame.flagColumns + {f},
             rows := seq(|frame.rows|, i requires 0 <= i < |frame.rows| => SetFlag(frame.rows[i], f, Some(Raw))))
  }

  /** One pass of the loop in `impute`. */
  function Step(imp: Imputer, frame: MdFrame, name: string): (r: (MdFrame, Option<ImputationStats>))
    ensures r.0.columns == frame.columns && |r.0.rows| == |frame.rows|
    ensures ImputableField(frame, name).None? ==> r == (frame, None)
    ensures r.1.Some? ==> r.1.value.fieldName == name && 0 < r.1.value.imputedCount < |frame.rows|
  {
    match ImputableField(frame, name)
    case None => (frame, None)
    case Some(f) => ImputeField(imp, WithFlag(frame, f), f)
  }

  function ImputeAll(imp: Imputer, frame: MdFrame, names: seq<string>): (r: (MdFrame, seq<ImputationStats>))
    decreases |names|
    ensures r.0.columns == frame.columns && |r.0.rows| == |frame.rows|
    ensures |r.1| <= |names|
    ensures forall st | st in r.1 :: st.fieldName in names && st.how == imp.how && 0 < st.imputedCount < |frame.rows|
  {
    if |names| == 0 then (frame, [])
    else
      var (next, st) := Step(imp, frame, names[0]);
      var (last, rest) := ImputeAll(imp, next, names[1..]);
      (last, (if st.Some? then [st.value] else []) + rest)
  }

  function Imputed(st: ImputationStats): real
  {
    st.imputedCount as real
  }

  /** `impute`: the requested (or default) fields one after another;
      the total is the sum of the fields' imputed counts. */
  function Impute(imp: Imputer, frame: MdFrame, fields: Option<seq<string>>): (r: ImputationResult)
    ensures r.totalRecords == |frame.rows| && |r.frame.rows| == |frame.rows| && r.frame.columns == frame.columns
    ensures r.totalImputed as real == Seqs.Sum(r.stats, Imputed)
    ensures forall st | st in r.stats :: st.how == imp.how && 0 < st.imputedCount < |frame.rows|
    ensures fields.Some? ==> forall st | st in r.stats :: st.fieldName in fields.value
  {
    var names := if fields.Some? then fields.value else DefaultNames(frame);
    var (out, stats) := ImputeAll(imp, frame, names);
    ImputationResult(out, stats, TotalImputed(stats), |frame.rows|)
  }

  function TotalImputed(stats: seq<ImputationStats>): (n: nat)
    ensures n as real == Seqs.Sum(stats, Imputed)
  {
    if |stats| == 0 then 0 else stats[0].imputedCount + TotalImputed(stats[1..])
  }

  // ---------------------------------------------------------------------
  // What imputation preserves and achieves
  // ---------------------------------------------------------------------

  /** A cell outside the mask survives one pass, and so does the SKU. */
  lemma StepKeepsValid(imp: Imputer, frame: MdFrame, name: string, i: nat, f: Field)
    requires f != Sku && i < |frame.rows|
    requires !MissingCell(Num(frame.rows[i], f), imp.zeroAsMissing)
    ensures Num(Step(imp, frame, name).0.rows[i], f) == Num(frame.rows[i], f)
    ensures Step(imp, frame, name).0.rows[i].sku == frame.rows[i].sku
  {
    match ImputableField(frame, name)
    case None =>
    case Some(g) =>
      var flagged := WithFlag(frame, g);
      var r := ImputeField(imp, flagged, g);
      if r.1.Some? {
        if g != f {
          ImputeFieldFrame(imp, flagged, g, i, f);
        }
      }
  }

  /** A column with no missing cell keeps none through one pass. */
  lemma StepKeepsClean(imp: Imputer, frame: MdFrame, name: string, f: Field)
    requires f != Sku && MissingCount(imp, frame.rows, f) == 0
    ensures MissingCount(imp, Step(imp, frame, name).0.rows, f) == 0
  {
    var out := Step(imp, frame, name).0;
    forall i | 0 <= i < |out.rows|
      ensures !At(f, MissingOf(imp))(out.rows[i])
    {
      assert !At(f, MissingOf(imp))(frame.rows[i]);
      StepKeepsValid(imp, frame, name, i, f);
    }
  }

  /** A pass that reports a statistic leaves its column with no missing cell. */
  lemma StepCleans(imp: Imputer, frame: MdFrame, name: string)
    requires Step(imp, frame, name).1.Some?
    ensures ImputableField(frame, name).Some?
    ensures MissingCount(imp, Step(imp, frame, name).0.rows, ImputableField(frame, name).value) == 0
  {
    var f := ImputableField(frame, name).value;
    ImputeFieldLeavesNoMissing(imp, WithFlag(frame, f), f);
  }

  /** Every valid cell of every column, and every SKU, is the same after
      all the passes. */
  lemma {:induction false} ImputeAllKeepsValid(imp: Imputer, frame: MdFrame, names: seq<string>, i: nat, f: Field)
    requires f != Sku && i < |frame.rows|
    requires !MissingCell(Num(frame.rows[i], f), imp.zeroAsMissing)
    ensures Num(ImputeAll(imp, frame, names).0.rows[i], f) == Num(frame.rows[i], f)
    ensures ImputeAll(imp, frame, names).0.rows[i].sku == frame.rows[i].sku
    decreases |names|
  {
    if |names| > 0 {
      var next := Step(imp, frame, names[0]).0;
      StepKeepsValid(imp, frame, names[0], i, f);
      ImputeAllKeepsValid(imp, next, names[1..], i, f);
    }
  }

  lemma {:induction false} ImputeAllKeepsClean(imp: Imputer, frame: MdFrame, names: seq<string>, f: Field)
    requires f != Sku && MissingCount(imp, frame.rows, f) == 0
    ensures MissingCount(imp, ImputeAll(imp, frame, names).0.rows, f) == 0
    decreases |names|
  {
    if |names| > 0 {
      StepKeepsClean(imp, frame, names[0], f);
      ImputeAllKeepsClean(imp, Step(imp, frame, names[0]).0, names[1..], f);
    }
  }

  /** Every column a statistic is reported for ends with no missing cell. */
  lemma {:induction false} ImputeAllCleans(imp: Imputer, frame: MdFrame, names: seq<string>, f: Field)
    requires f != Sku
    requires exists st | st in ImputeAll(imp, frame, names).1 :: st.fieldName == ColumnName(f)
    ensures MissingCount(imp, ImputeAll(imp, frame, names).0.rows, f) == 0
    decreases |names|
  {
    var (next, st) := Step(imp, frame, names[0]);
    var (last, rest) := ImputeAll(imp, next, names[1..]);
    if st.Some? && st.value.fieldName == ColumnName(f) {
      StepCleans(imp, frame, names[0]);
      assert ImputableField(frame, names[0]).value == f;
      ImputeAllKeepsClean(imp, next, names[1..], f);
    } else {
      ImputeAllCleans(imp, next, names[1..], f);
    }
  }

  /** After `impute`, a column a statistic is reported for has no missing
      cell, and every cell that was not missing is unchanged. */
  lemma ImputeCompletes(imp: Imputer, frame: MdFrame, fields: Option<seq<string>>, f: Field)
    requires f != Sku
    ensures var r := Impute(imp, frame, fields);
      (exists st | st in r.stats :: st.fieldName == ColumnName(f)) ==> MissingCount(imp, r.frame.rows, f) == 0
    ensures var r := Impute(imp, frame, fields);
      forall i | 0 <= i < |frame.rows| && !MissingCell(Num(frame.rows[i], f), imp.zeroAsMissing) ::
        Num(r.frame.rows[i], f) == Num(frame.rows[i], f) && r.frame.rows[i].sku == frame.rows[i].sku
  {
    var names := if fields.Some? then fields.value else DefaultNames(frame);
    var r := Impute(imp, frame, fields);
    if exists st | st in r.stats :: st.fieldName == ColumnName(f) {
      ImputeAllCleans(imp, frame, names, f);
    }
    forall i | 0 <= i < |frame.rows| && !MissingCell(Num(frame.rows[i], f), imp.zeroAsMissing)
      ensures Num(r.frame.rows[i], f) == Num(frame.rows[i], f) && r.frame.rows[i].sku == frame.rows[i].sku
    {
      ImputeAllKeepsValid(imp, frame, names, i, f);
    }
  }
}
