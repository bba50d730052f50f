/** The column-mapping wizard (src/ingest/mapping.py): column-name
    normalisation, alias scoring, automatic mapping with history priority,
    suggestions, and recording the user's corrections into the history. */
module Mapping {
  import opened Wrappers
  import opened Ascii
  import Seqs
  import Reals
  import Sorting
  import MappingHistory

  /** One target field of a schema: its aliases and whether it is required. */
  datatype FieldSpec = FieldSpec(name: string, aliases: seq<string>, required: bool)

  /** A schema is a dict in Python; here its fields in dict order. */
  type Schema = seq<FieldSpec>

  /** `MASTERDATA_SCHEMA`, in its field order. */
  const MasterdataSchema: Schema := [
    FieldSpec("sku", [
      "sku", "item", "article", "product_id", "item_id", "code", "item_code", "product_code",
      "material", "material_id", "part", "part_number", "part_no", "pn", "upc", "ean",
      "barcode", "gtin", "catalog_number", "item_number", "item_no", "reference", "ref",
      "stock_code", "artykul", "indeks", "kod", "nr", "numer", "numer_artykulu",
      "kod_produktu", "kod_towaru", "indeks_materialowy", "indeks_towarowy", "symbol",
      "symbol_towaru", "towar", "produkt", "id_produktu", "id_towaru"
    ], true),
    FieldSpec("length", [
      "length", "l", "len", "dim_l", "length_mm", "length_cm", "length_m", "dimension_l",
      "lng", "long", "depth", "d", "dim_d", "dlugosc", "dl", "dlug", "wymiar_l",
      "wymiar_dlugosc", "glebokosc"
    ], true),
    FieldSpec("width", [
      "width", "w", "wid", "dim_w", "width_mm", "width_cm", "width_m", "dimension_w",
      "breadth", "broad", "wdt", "szerokosc", "szer", "szerok", "wymiar_w", "wymiar_szerokosc"
    ], true),
    FieldSpec("height", [
      "height", "h", "hgt", "dim_h", "height_mm", "height_cm", "height_m", "dimension_h", "ht",
      "tall", "z", "dim_z", "wysokosc", "wys", "wysok", "wymiar_h", "wymiar_wysokosc"
    ], true),
    FieldSpec("weight", [
      "weight", "wgt", "mass", "kg", "weight_kg", "weight_g", "grams", "gram", "g",
      "weight_grams", "net_weight", "gross_weight", "unit_weight", "item_weight",
      "product_weight", "wt", "waga", "masa", "ciezar", "waga_kg", "waga_g",
      "waga_jednostkowa", "masa_netto", "masa_brutto"
    ], true),
    FieldSpec("stock", [
      "stock", "qty", "quantity", "stock_qty", "on_hand", "inventory", "available",
      "available_qty", "balance", "units", "pieces", "pcs", "count", "stock_level",
      "stock_quantity", "inventory_qty", "ilosc", "zapas", "stan", "szt", "sztuk",
      "stan_magazynowy", "dostepne", "ilosc_dostepna", "magazyn"
    ], true)
  ]

  /** `ORDERS_SCHEMA`, in its field order. */
  const OrdersSchema: Schema := [
    FieldSpec("order_id", [
      "order_id", "order", "order_no", "order_number", "ordernr", "order_ref",
      "order_reference", "sales_order", "so", "so_number", "document_id", "doc_id",
      "transaction_id", "invoice", "invoice_no", "zamowienie", "nr_zamowienia",
      "numer_zamowienia", "id_zamowienia", "faktura", "nr_faktury", "dokument"
    ], true),
    FieldSpec("line_id", [
      "line_id", "line", "line_no", "line_number", "line_item", "item_line", "row", "row_id",
      "row_number", "sequence", "seq", "position", "linia", "pozycja", "nr_linii",
      "numer_linii", "wiersz"
    ], false),
    FieldSpec("sku", [
      "sku", "item", "article", "product_id", "item_id", "code", "item_code", "product_code",
      "material", "part", "part_number", "artykul", "indeks", "kod", "kod_produktu",
      "kod_towaru", "symbol", "towar", "produkt"
    ], true),
    FieldSpec("quantity", [
      "quantity", "qty", "amount", "units", "pieces", "pcs", "count", "ordered_qty",
      "shipped_qty", "line_qty", "unit_count", "ea", "ilosc", "szt", "sztuk",
      "zamowiona_ilosc", "liczba"
    ], true),
    FieldSpec("date", [
      "datetime", "timestamp", "date", "created", "shipped", "order_date", "ship_date",
      "delivery_date", "fulfillment_date", "transaction_date", "created_at", "updated_at",
      "processed_date", "data", "data_zamowienia", "data_wysylki", "data_dostawy",
      "data_realizacji"
    ], true),
    FieldSpec("time", [
      "time", "hour", "time_of_day", "order_time", "ship_time", "czas", "godzina"
    ], false)
  ]

  function SchemaNames(schema: Schema): (r: seq<string>)
    ensures |r| == |schema| && forall i :: 0 <= i < |schema| ==> r[i] == schema[i].name
  {
    seq(|schema|, i requires 0 <= i < |schema| => schema[i].name)
  }

  /** The names of the required fields. */
  predicate IsRequired(schema: Schema, f: string)
  {
    exists i :: 0 <= i < |schema| && schema[i].name == f && schema[i].required
  }

  /** Python dict keys are unique. */
  predicate WellFormed(schema: Schema)
  {
    Seqs.NoDup(SchemaNames(schema))
  }

  datatype ColumnMapping = ColumnMapping(targetField: string, sourceColumn: string, confidence: real, isAuto: bool)

  datatype MappingResult = MappingResult(
    mappings: map<string, ColumnMapping>,
    unmappedColumns: seq<string>,
    missingRequired: seq<string>)

  predicate IsComplete(r: MappingResult)
  {
    |r.missingRequired| == 0
  }

  /** The source columns the mappings use. */
  function Image(m: map<string, ColumnMapping>): set<string>
  {
    set f | f in m :: m[f].sourceColumn
  }

  /** No source column serves two fields. */
  predicate Injective(m: map<string, ColumnMapping>)
  {
    forall f, g | f in m && g in m && f != g :: m[f].sourceColumn != m[g].sourceColumn
  }

  lemma ImageAssign(m: map<string, ColumnMapping>, f: string, cm: ColumnMapping)
    requires f !in m
    ensures Image(m[f := cm]) == Image(m) + {cm.sourceColumn}
  {
    var m' := m[f := cm];
    forall x
      ensures x in Image(m') <==> x in Image(m) + {cm.sourceColumn}
    {
      if x in Image(m') {
        var g :| g in m' && m'[g].sourceColumn == x;
        if g != f {
          assert g in m && m[g].sourceColumn == x;
        }
      }
      if x in Image(m) {
        var g :| g in m && m[g].sourceColumn == x;
        assert g in m' && m'[g].sourceColumn == x;
      }
      assert f in m' && m'[f].sourceColumn == cm.sourceColumn;
    }
  }

  // ---------------------------------------------------------------------
  // Column names
  // ---------------------------------------------------------------------

  predicate IsUnderscore(c: char)
  {
    c == '_'
  }

  /** `_normalize_column_name`: lowercase, strip, spaces and hyphens to `_`,
      trailing underscores removed. */
  function NormalizeColumnName(name: string): (r: string)
    ensures forall i :: 0 <= i < |r| ==> !IsUpper(r[i]) && r[i] != ' ' && r[i] != '-'
    ensures |r| > 0 ==> r[|r| - 1] != '_'
    ensures |r| <= |name|
  {
    RStripWhile(MapChar(MapChar(Strip(Lower(name)), ' ', '_'), '-', '_'), IsUnderscore)
  }

  /** The wizard's name is the history store's key without its trailing
      underscores. */
  lemma ColumnNameIsTrimmedKey(name: string)
    ensures NormalizeColumnName(name) == RStripWhile(MappingHistory.Normalize(name), IsUnderscore)
  {
  }

  /** Normalising twice changes nothing when the only whitespace in the name
      is the space character. */
  lemma NormalizeColumnNameIdempotent(name: string)
    requires forall i :: 0 <= i < |name| && IsSpace(name[i]) ==> name[i] == ' '
    ensures NormalizeColumnName(NormalizeColumnName(name)) == NormalizeColumnName(name)
  {
    var t := NormalizeColumnName(name);
    NormalizedHasNoSpace(name);
    LowerKeeps(t);
    StripKeeps(t);
    MapCharKeeps(t, ' ', '_');
    MapCharKeeps(t, '-', '_');
    RStripKeeps(t, IsUnderscore);
  }

  /** With the space as the only whitespace, no whitespace survives. */
  lemma NormalizedHasNoSpace(name: string)
    requires BlankOnly(name)
    ensures var t := NormalizeColumnName(name); forall i :: 0 <= i < |t| ==> !IsSpace(t[i])
  {
    var low := Lower(name);
    LowerBlankOnly(name);
    var st := Strip(low);
    StripBlankOnly(low);
    var m1 := MapChar(st, ' ', '_');
    BlanksReplaced(st);
    var m2 := MapChar(m1, '-', '_');
    DashesReplacedNoSpace(m1);
    var t := NormalizeColumnName(name);
    assert t == m2[..|t|];
  }

  /** The space is the only whitespace character of `s`. */
  predicate BlankOnly(s: string)
  {
    forall i :: 0 <= i < |s| && IsSpace(s[i]) ==> s[i] == ' '
  }

  predicate NoSpace(s: string)
  {
    forall i :: 0 <= i < |s| ==> !IsSpace(s[i])
  }

  lemma LowerBlankOnly(s: string)
    requires BlankOnly(s)
    ensures BlankOnly(Lower(s))
  {
    var low := Lower(s);
    forall i | 0 <= i < |low| && IsSpace(low[i])
      ensures low[i] == ' '
    {
      assert low[i] == ToLower(s[i]);
    }
  }

  lemma StripBlankOnly(s: string)
    requires BlankOnly(s)
    ensures BlankOnly(Strip(s))
  {
    var st := Strip(s);
    forall i | 0 <= i < |st| && IsSpace(st[i])
      ensures st[i] == ' '
    {
      assert st[i] in s;
    }
  }

  lemma BlanksReplaced(s: string)
    requires BlankOnly(s)
    ensures NoSpace(MapChar(s, ' ', '_'))
  {
  }

  lemma DashesReplacedNoSpace(s: string)
    requires NoSpace(s)
    ensures NoSpace(MapChar(s, '-', '_'))
  {
  }

  /** A tab is stripped at the ends but not replaced inside, so a name
      whose tab becomes trailing only after the underscores go is not
      normalised in one pass. */
  lemma TabNameNotIdempotent()
    ensures NormalizeColumnName("x\t-") == "x\t"
    ensures NormalizeColumnName("x\t") == "x"
  {
    TabDashName();
    TabName();
  }

  lemma TabDashName()
    ensures NormalizeColumnName("x\t-") == "x\t"
  {
    assert Lower("x\t-") == "x\t-";
    assert Strip("x\t-") == "x\t-" by {
      StripKeeps("x\t-");
    }
    assert MapChar("x\t-", ' ', '_') == "x\t-";
    assert MapChar("x\t-", '-', '_') == "x\t_";
    assert TrailingCount("x\t_", IsUnderscore) == 1 by {
      assert "x\t_"[..2] == "x\t";
      assert TrailingCount("x\t", IsUnderscore) == 0;
    }
  }

  lemma TabName()
    ensures NormalizeColumnName("x\t") == "x"
  {
    assert Lower("x\t") == "x\t";
    assert TrailingCount("x\t", IsSpace) == 1 by {
      assert "x\t"[..1] == "x";
      assert TrailingCount("x", IsSpace) == 0;
    }
    assert RStripWhile("x\t", IsSpace) == "x";
    assert LeadingCount("x", IsSpace) == 0;
    assert Strip("x\t") == "x";
    assert MapChar("x", ' ', '_') == "x";
    assert MapChar("x", '-', '_') == "x";
    RStripKeeps("x", IsUnderscore);
  }

  // ---------------------------------------------------------------------
  // Alias scoring
  // ---------------------------------------------------------------------

  /** Which program auto-mapping and suggestions follow: the source as
      written, or with the two corrections this model proposes (the shorter
      length over the longer as the partial-match ratio, and the history
      store's own key for history look-ups). */
  datatype Variant = AsWritten | Corrected

  /** Python `a in b or b in a`. */
  predicate PartialMatch(norm: string, alias: string)
  {
    Contains(norm, alias) || Contains(alias, norm)
  }

  lemma {:induction false} ContainsShorter(s: string, sub: string)
    requires Contains(s, sub)
    ensures |sub| <= |s|
    ensures |sub| == |s| ==> sub == s
    decreases |s|
  {
    if !StartsWith(s, sub) {
      ContainsShorter(s[1..], sub);
    }
  }

  function MaxLen(a: string, b: string): (m: nat)
    ensures m >= |a| && m >= |b| && (m == |a| || m == |b|)
  {
    if |a| >= |b| then |a| else |b|
  }

  /** `lo / hi` for lengths `lo <= hi`. */
  function Frac(lo: nat, hi: nat): (r: real)
    requires 0 < hi && lo <= hi
    ensures 0.0 <= r <= 1.0
    ensures r == 1.0 <==> lo == hi
    ensures r == 0.0 <==> lo == 0
  {
    Reals.ShareBounds(lo, hi);
    (lo as real) / (hi as real)
  }

  /** As written: `len(alias) / max(len(name), len(alias))`. */
  function RatioAsWritten(norm: string, alias: string): (r: real)
    requires norm != alias
    ensures 0.0 <= r <= 1.0
    ensures |norm| <= |alias| ==> r == 1.0
  {
    assert |norm| + |alias| > 0;
    Frac(|alias|, MaxLen(norm, alias))
  }

  /** Corrected: the shorter length over the longer. */
  function RatioCorrected(norm: string, alias: string): (r: real)
    requires norm != alias
    ensures 0.0 <= r <= 1.0
    ensures PartialMatch(norm, alias) ==> r < 1.0
    ensures r == 0.0 <==> |norm| == 0 || |alias| == 0
  {
    assert |norm| + |alias| > 0;
    assert PartialMatch(norm, alias) ==> |norm| != |alias| by {
      if Contains(norm, alias) {
        ContainsShorter(norm, alias);
      }
      if Contains(alias, norm) {
        ContainsShorter(alias, norm);
      }
    }
    var lo := if |norm| <= |alias| then |norm| else |alias|;
    Frac(lo, MaxLen(norm, alias))
  }

  function Ratio(sc: Variant, norm: string, alias: string): (r: real)
    requires norm != alias
    ensures 0.0 <= r <= 1.0
  {
    match sc
    case AsWritten => RatioAsWritten(norm, alias)
    case Corrected => RatioCorrected(norm, alias)
  }

  /** `normalized == alias.lower()`. */
  predicate IsExact(norm: string, alias: string)
  {
    norm == Lower(alias)
  }

  /** The partial score of one alias against a normalised name, 0 when
      neither contains the other; an exact alias is decided before this. */
  function AliasScore(sc: Variant, norm: string, alias: string): (r: real)
    ensures 0.0 <= r <= 1.0
    ensures sc == Corrected ==> r < 1.0
    ensures sc == Corrected && |norm| == 0 ==> r == 0.0
  {
    var a := Lower(alias);
    if norm != a && PartialMatch(norm, a) then Ratio(sc, norm, a) else 0.0
  }

  // ---------------------------------------------------------------------
  // _find_best_match
  // ---------------------------------------------------------------------

  /** The (column, alias) pairs in the order the two loops visit them,
      skipping used columns. */
  function Candidates(columns: seq<string>, aliases: seq<string>, used: set<string>): (r: seq<(string, string)>)
    ensures forall p :: p in r <==> p.0 in columns && p.0 !in used && p.1 in aliases
  {
    if |columns| == 0 then []
    else
      var c := columns[0];
      var row := if c in used then [] else seq(|aliases|, i requires 0 <= i < |aliases| => (c, aliases[i]));
      var rest := Candidates(columns[1..], aliases, used);
      assert forall p :: p in row <==> p.0 == c && c !in used && p.1 in aliases by {
        forall p
          ensures p in row <==> p.0 == c && c !in used && p.1 in aliases
        {
          if p.0 == c && c !in used && p.1 in aliases {
            var i :| 0 <= i < |aliases| && aliases[i] == p.1;
            assert row[i] == p;
          }
        }
      }
      assert forall x :: x in columns <==> x == c || x in columns[1..];
      row + rest
  }

  predicate ExactPair(p: (string, string))
  {
    IsExact(NormalizeColumnName(p.0), p.1)
  }

  function PairScore(sc: Variant, p: (string, string)): real
  {
    AliasScore(sc, NormalizeColumnName(p.0), p.1)
  }

  /** Some unused column is exactly an alias. */
  predicate HasExact(columns: seq<string>, aliases: seq<string>, used: set<string>)
  {
    exists c, a | c in columns && c !in used && a in aliases :: ExactPair((c, a))
  }

  /** The column of the first exact pair: the loop returns there. */
  function FirstExact(pairs: seq<(string, string)>): (r: Option<string>)
    ensures r.None? <==> forall k :: 0 <= k < |pairs| ==> !ExactPair(pairs[k])
    ensures r.Some? ==> exists k :: 0 <= k < |pairs| && ExactPair(pairs[k]) && pairs[k].0 == r.value
  {
    if |pairs| == 0 then None
    else if ExactPair(pairs[0]) then Some(pairs[0].0)
    else
      var r := FirstExact(pairs[1..]);
      assert forall k :: 1 <= k < |pairs| ==> pairs[k] == pairs[1..][k - 1];
      r
  }

  /** Each candidate pair with its partial score. */
  function Scored(sc: Variant, pairs: seq<(string, string)>): (r: seq<(string, real)>)
    ensures |r| == |pairs|
    ensures forall k :: 0 <= k < |r| ==> r[k] == (pairs[k].0, PairScore(sc, pairs[k]))
  {
    seq(|pairs|, k requires 0 <= k < |pairs| => (pairs[k].0, PairScore(sc, pairs[k])))
  }

  /** The running best of the loop: an item replaces the best only with a
      strictly higher score (see `BestIsEarliest`). */
  function Best(items: seq<(string, real)>, bestCol: Option<string>, bestScore: real): (r: (Option<string>, real))
    ensures r.1 >= bestScore
    ensures forall k :: 0 <= k < |items| ==> items[k].1 <= r.1
    ensures r.1 == bestScore ==> r.0 == bestCol
    ensures r.1 > bestScore ==> (exists k :: 0 <= k < |items| && r == (Some(items[k].0), items[k].1))
  {
    if |items| == 0 then (bestCol, bestScore)
    else
      assert forall k :: 1 <= k < |items| ==> items[k] == items[1..][k - 1];
      if items[0].1 > bestScore then Best(items[1..], Some(items[0].0), items[0].1)
      else Best(items[1..], bestCol, bestScore)
  }

  /** Of several items with the highest score, the earliest is kept. */
  lemma {:induction false} BestIsEarliest(items: seq<(string, real)>, bestCol: Option<string>, bestScore: real)
    ensures var r := Best(items, bestCol, bestScore);
      r.1 > bestScore ==> (exists k :: 0 <= k < |items| && r == (Some(items[k].0), items[k].1) && (forall j :: 0 <= j < k ==> items[j].1 < r.1))
  {
    if |items| > 0 {
      var r := Best(items, bestCol, bestScore);
      var rest := items[1..];
      if items[0].1 > bestScore {
        assert r == Best(rest, Some(items[0].0), items[0].1);
        BestIsEarliest(rest, Some(items[0].0), items[0].1);
        if r.1 > items[0].1 {
          EarlierFromRest(items, r);
        } else {
          assert r == (Some(items[0].0), items[0].1);
        }
      } else {
        assert r == Best(rest, bestCol, bestScore);
        BestIsEarliest(rest, bestCol, bestScore);
        if r.1 > bestScore {
          EarlierFromRest(items, r);
        }
      }
    }
  }

  /** An earliest best of `items[1..]` that beats `items[0]` is an earliest
      best of `items`. */
  lemma EarlierFromRest(items: seq<(string, real)>, r: (Option<string>, real))
    requires |items| > 0 && items[0].1 < r.1
    requires exists k :: 0 <= k < |items[1..]| && r == (Some(items[1..][k].0), items[1..][k].1) && (forall j :: 0 <= j < k ==> items[1..][j].1 < r.1)
    ensures exists k :: 0 <= k < |items| && r == (Some(items[k].0), items[k].1) && (forall j :: 0 <= j < k ==> items[j].1 < r.1)
  {
    var rest := items[1..];
    var k :| 0 <= k < |rest| && r == (Some(rest[k].0), rest[k].1) && (forall j :: 0 <= j < k ==> rest[j].1 < r.1);
    assert items[k + 1] == rest[k];
    assert forall j :: 1 <= j < k + 1 ==> items[j] == rest[j - 1];
  }

  /** `_find_best_match` with either ratio. */
  function FindBestMatchWith(sc: Variant, columns: seq<string>, aliases: seq<string>, used: set<string>): (r: Option<(string, real)>)
    ensures r.Some? ==> r.value.0 in columns && r.value.0 !in used && 0.5 <= r.value.1 <= 1.0
    ensures HasExact(columns, aliases, used) ==>
      r.Some? && r.value.1 == 1.0 && exists a | a in aliases :: ExactPair((r.value.0, a))
    ensures !HasExact(columns, aliases, used) && r.Some? ==>
      0.5 <= r.value.1 && (exists a | a in aliases :: PairScore(sc, (r.value.0, a)) == r.value.1) &&
      forall c, a | c in columns && c !in used && a in aliases :: PairScore(sc, (c, a)) <= r.value.1
    ensures !HasExact(columns, aliases, used) && "" !in columns ==>
      (exists c, a | c in columns && c !in used && a in aliases :: PairScore(sc, (c, a)) >= 0.5) ==> r.Some?
    ensures r.None? ==> !HasExact(columns, aliases, used)
  {
    var pairs := Candidates(columns, aliases, used);
    match FirstExact(pairs)
    case Some(c) =>
      var k :| 0 <= k < |pairs| && ExactPair(pairs[k]) && pairs[k].0 == c;
      assert pairs[k] in pairs;
      Some((c, 1.0))
    case None =>
      NoExactPair(columns, aliases, used, pairs);
      var items := Scored(sc, pairs);
      var b := Best(items, None, 0.0);
      BestOfPairs(sc, columns, aliases, used, pairs, items, b);
      if b.0.Some? && b.0.value != "" && b.1 >= 0.5 then Some((b.0.value, b.1)) else None
  }

  lemma NoExactPair(columns: seq<string>, aliases: seq<string>, used: set<string>, pairs: seq<(string, string)>)
    requires pairs == Candidates(columns, aliases, used)
    requires forall k :: 0 <= k < |pairs| ==> !ExactPair(pairs[k])
    ensures !HasExact(columns, aliases, used)
  {
    forall c, a | c in columns && c !in used && a in aliases
      ensures !ExactPair((c, a))
    {
      assert (c, a) in pairs;
    }
  }

  /** What the fold's result says about the candidate pairs. */
  lemma BestOfPairs(sc: Variant, columns: seq<string>, aliases: seq<string>, used: set<string>,
                    pairs: seq<(string, string)>, items: seq<(string, real)>, b: (Option<string>, real))
    requires pairs == Candidates(columns, aliases, used) && items == Scored(sc, pairs) && b == Best(items, None, 0.0)
    ensures b.1 > 0.0 ==> b.0.Some? && b.0.value in columns && b.0.value !in used
    ensures b.1 > 0.0 ==> exists a | a in aliases :: PairScore(sc, (b.0.value, a)) == b.1
    ensures b.1 == 0.0 ==> b.0.None?
    ensures forall c, a | c in columns && c !in used && a in aliases :: PairScore(sc, (c, a)) <= b.1
  {
    if b.1 > 0.0 {
      var k :| 0 <= k < |items| && b == (Some(items[k].0), items[k].1);
      assert pairs[k] in pairs;
      assert PairScore(sc, (b.0.value, pairs[k].1)) == b.1;
    }
    forall c, a | c in columns && c !in used && a in aliases
      ensures PairScore(sc, (c, a)) <= b.1
    {
      assert (c, a) in pairs;
      var k :| 0 <= k < |pairs| && pairs[k] == (c, a);
      assert items[k].1 == PairScore(sc, (c, a));
    }
  }

  /** `_find_best_match` with the corrected ratio: full confidence only for
      an exact alias. */
  function FindBestMatch(columns: seq<string>, aliases: seq<string>, used: set<string>): (r: Option<(string, real)>)
    ensures r.Some? ==> r.value.0 in columns && r.value.0 !in used && 0.5 <= r.value.1 <= 1.0
    ensures r.Some? ==> (r.value.1 == 1.0 <==> HasExact(columns, aliases, used))
    ensures HasExact(columns, aliases, used) ==> r.Some? && exists a | a in aliases :: ExactPair((r.value.0, a))
    ensures !HasExact(columns, aliases, used) && r.Some? ==>
      forall c, a | c in columns && c !in used && a in aliases :: PairScore(Corrected, (c, a)) <= r.value.1
  {
    var r := FindBestMatchWith(Corrected, columns, aliases, used);
    assert !HasExact(columns, aliases, used) && r.Some? ==> r.value.1 < 1.0 by {
      if !HasExact(columns, aliases, used) && r.Some? {
        var a :| a in aliases && PairScore(Corrected, (r.value.0, a)) == r.value.1;
      }
    }
    r
  }

  /** A column whose name normalises to "" (such as `_` or `-`) is
      contained in every alias, so as written it scores 1.0 against the
      first alias list it meets. */
  lemma EmptyNameTakesFullScoreAsWritten(column: string, aliases: seq<string>)
    requires NormalizeColumnName(column) == "" && column != "" && |aliases| > 0
    ensures FindBestMatchWith(AsWritten, [column], aliases, {}) == Some((column, 1.0))
  {
    var pairs := Candidates([column], aliases, {});
    assert (column, aliases[0]) in pairs;
    if HasExact([column], aliases, {}) {
      var r := FindBestMatchWith(AsWritten, [column], aliases, {});
      assert r.value.0 in [column];
    } else {
      assert !ExactPair((column, aliases[0]));
      var l := Lower(aliases[0]);
      assert Contains(l, "") by {
        assert StartsWith(l, "");
      }
      assert PairScore(AsWritten, (column, aliases[0])) == 1.0;
      assert FirstExact(pairs).None? by {
        forall k | 0 <= k < |pairs|
          ensures !ExactPair(pairs[k])
        {
          assert pairs[k] in pairs;
        }
      }
      var items := Scored(AsWritten, pairs);
      var b := Best(items, None, 0.0);
      var k :| 0 <= k < |pairs| && pairs[k] == (column, aliases[0]);
      assert items[k].1 == 1.0;
      BestOfPairs(AsWritten, [column], aliases, {}, pairs, items, b);
      assert b.0 == Some(column) && b.1 == 1.0;
    }
  }

  /** With the corrected ratio such a column matches nothing. */
  lemma EmptyNameNeverMatches(column: string, aliases: seq<string>)
    requires NormalizeColumnName(column) == "" && forall a | a in aliases :: a != ""
    ensures FindBestMatch([column], aliases, {}) == None
  {
    var pairs := Candidates([column], aliases, {});
    assert !HasExact([column], aliases, {}) by {
      forall c, a | c in [column] && a in aliases
        ensures !ExactPair((c, a))
      {
        assert |Lower(a)| == |a| > 0;
      }
    }
    var items := Scored(Corrected, pairs);
    var b := Best(items, None, 0.0);
    forall k | 0 <= k < |pairs|
      ensures items[k].1 == 0.0
    {
      assert pairs[k] in pairs;
    }
  }

  lemma UnderscoreNormalizesEmpty()
    ensures NormalizeColumnName("_") == ""
  {
    assert Lower("_") == "_";
    StripKeeps("_");
    assert MapChar("_", ' ', '_') == "_";
    assert MapChar("_", '-', '_') == "_";
    assert TrailingCount("_", IsUnderscore) == 1 by {
      assert "_"[..0] == "";
    }
  }

  // ---------------------------------------------------------------------
  // auto_map
  // ---------------------------------------------------------------------

  /** The key auto-mapping looks a column up by in the history. As written
      it is `_normalize_column_name`, which the store never uses; the
      corrected key is the store's own `_normalize`. */
  function HistoryKeyAsWritten(column: string): string
  {
    NormalizeColumnName(column)
  }

  function HistoryKey(column: string): string
  {
    MappingHistory.Normalize(column)
  }

  function HistoryKeyOf(sc: Variant, column: string): string
  {
    match sc
    case AsWritten => HistoryKeyAsWritten(column)
    case Corrected => HistoryKey(column)
  }

  /** As written, a column recorded as `A-` is stored under `a_` (the
      corrected key) but looked up as `a`, so the recorded correction is
      never found again. */
  lemma RecordedColumnMissedAsWritten()
    ensures HistoryKey("A-") == "a_" && HistoryKeyAsWritten("A-") == "a"
  {
    LowerExample();
    StripKeeps("a-");
    assert MapChar("a-", ' ', '_') == "a-";
    assert MapChar("a-", '-', '_') == "a_";
    assert TrailingCount("a_", IsUnderscore) == 1 by {
      assert "a_"[..1] == "a";
    }
  }

  lemma LowerExample()
    ensures Lower("A-") == "a-"
  {
  }

  /** With the corrected key every recorded column finds its entry again. */
  lemma RecordedColumnFound(h: MappingHistory.History, column: string, targetField: string, schemaType: string,
                            clientPattern: string, isUserCorrection: bool)
    ensures var after := MappingHistory.EntriesOf(
        MappingHistory.RecordMapping(h, column, targetField, schemaType, clientPattern, isUserCorrection), schemaType);
      exists i :: 0 <= i < |after| && after[i].sourceColumn == HistoryKey(column) && after[i].targetField == targetField
  {
    var before := MappingHistory.EntriesOf(h, schemaType);
    var key := MappingHistory.Normalize(column);
    match MappingHistory.FindPair(before, key, targetField)
    case Some(i) =>
    case None =>
      var after := MappingHistory.EntriesOf(
        MappingHistory.RecordMapping(h, column, targetField, schemaType, clientPattern, isUserCorrection), schemaType);
      assert after[|before|].sourceColumn == key;
  }

  /** A column the history entry names and the blacklist does not forbid. */
  predicate HistoryHit(sc: Variant, h: MappingHistory.History, schemaType: string, e: MappingHistory.Entry, column: string)
  {
    HistoryKeyOf(sc, column) == e.sourceColumn && !MappingHistory.IsBlacklisted(h, column, e.targetField, schemaType)
  }

  /** The first unused column the history entry hits. */
  function HistoryColumn(sc: Variant, h: MappingHistory.History, schemaType: string, e: MappingHistory.Entry,
                         columns: seq<string>, used: set<string>): (r: Option<string>)
    ensures r.Some? ==> r.value in columns && r.value !in used && HistoryHit(sc, h, schemaType, e, r.value)
    ensures r.None? <==> forall c | c in columns && c !in used :: !HistoryHit(sc, h, schemaType, e, c)
  {
    if |columns| == 0 then None
    else if columns[0] !in used && HistoryHit(sc, h, schemaType, e, columns[0]) then Some(columns[0])
    else
      assert forall c :: c in columns <==> c == columns[0] || c in columns[1..];
      HistoryColumn(sc, h, schemaType, e, columns[1..], used)
  }

  /** The mapping under construction and the columns it uses. */
  datatype Draft = Draft(mappings: map<string, ColumnMapping>, used: set<string>)

  /** The invariant of both steps: `used` is exactly the mapped columns, no
      column serves two fields, every field is a schema field mapped to an
      input column. */
  predicate Sound(d: Draft, columns: seq<string>, names: seq<string>)
  {
    d.used == Image(d.mappings) && Injective(d.mappings) &&
    forall f | f in d.mappings ::
      f in names && d.mappings[f].targetField == f && d.mappings[f].sourceColumn in columns && d.mappings[f].isAuto
  }

  /** Later steps never remap a field. */
  predicate Extends(later: Draft, earlier: Draft)
  {
    forall f | f in earlier.mappings :: f in later.mappings && later.mappings[f] == earlier.mappings[f]
  }

  function Assign(d: Draft, f: string, c: string, confidence: real): (r: Draft)
    requires f !in d.mappings && c !in d.used
    ensures r.mappings == d.mappings[f := ColumnMapping(f, c, confidence, true)]
    ensures r.used == d.used + {c}
  {
    Draft(d.mappings[f := ColumnMapping(f, c, confidence, true)], d.used + {c})
  }

  lemma AssignSound(d: Draft, f: string, c: string, confidence: real, columns: seq<string>, names: seq<string>)
    requires Sound(d, columns, names) && f !in d.mappings && c !in d.used && f in names && c in columns
    ensures Sound(Assign(d, f, c, confidence), columns, names) && Extends(Assign(d, f, c, confidence), d)
  {
    ImageAssign(d.mappings, f, ColumnMapping(f, c, confidence, true));
  }

  /** One history entry's turn. */
  function HistoryTurn(sc: Variant, h: MappingHistory.History, schemaType: string, names: seq<string>,
                       e: MappingHistory.Entry, columns: seq<string>, d: Draft): (r: Draft)
    requires Sound(d, columns, names)
    ensures Sound(r, columns, names) && Extends(r, d)
    ensures forall f | f in r.mappings && f !in d.mappings ::
      f == e.targetField && r.mappings[f].confidence == 0.95 && HistoryHit(sc, h, schemaType, e, r.mappings[f].sourceColumn)
    ensures (e.targetField in names && e.targetField !in d.mappings &&
             HistoryColumn(sc, h, schemaType, e, columns, d.used).Some?) ==> e.targetField in r.mappings
  {
    if e.targetField !in names || e.targetField in d.mappings then d
    else match HistoryColumn(sc, h, schemaType, e, columns, d.used)
      case None => d
      case Some(c) => AssignSound(d, e.targetField, c, 0.95, columns, names); Assign(d, e.targetField, c, 0.95)
  }

  /** Step 1 of `auto_map`: each history entry, most used first, claims its
      first hit column for its field unless the field is unknown or taken. */
  function HistoryStep(sc: Variant, h: MappingHistory.History, schemaType: string, names: seq<string>,
                       entries: seq<MappingHistory.Entry>, columns: seq<string>, d: Draft): (r: Draft)
    requires Sound(d, columns, names)
    ensures Sound(r, columns, names) && Extends(r, d)
    ensures forall f | f in r.mappings && f !in d.mappings ::
      r.mappings[f].confidence == 0.95 &&
      exists e | e in entries :: e.targetField == f && HistoryHit(sc, h, schemaType, e, r.mappings[f].sourceColumn)
    decreases |entries|
  {
    if |entries| == 0 then d
    else
      var e := entries[0];
      var next := HistoryTurn(sc, h, schemaType, names, e, columns, d);
      var r := HistoryStep(sc, h, schemaType, names, entries[1..], columns, next);
      assert forall x | x in entries[1..] :: x in entries;
      r
  }

  /** One field's turn in the alias step. */
  function AliasTurn(sc: Variant, s: FieldSpec, names: seq<string>, columns: seq<string>, d: Draft, missing: seq<string>): (r: (Draft, seq<string>))
    requires Sound(d, columns, names) && s.name in names
    ensures Sound(r.0, columns, names) && Extends(r.0, d)
    ensures forall f | f in r.0.mappings && f !in d.mappings :: f == s.name && 0.5 <= r.0.mappings[f].confidence <= 1.0
    ensures s.name !in d.mappings && HasExact(columns, s.aliases, d.used) ==> s.name in r.0.mappings
    ensures r.1 == if s.name !in r.0.mappings && s.required then missing + [s.name] else missing
  {
    if s.name in d.mappings then (d, missing)
    else match FindBestMatchWith(sc, columns, s.aliases, d.used)
      case Some(m) => AssignSound(d, s.name, m.0, m.1, columns, names); (Assign(d, s.name, m.0, m.1), missing)
      case None => (d, if s.required then missing + [s.name] else missing)
  }

  /** A schema split into its first field and the rest. */
  lemma SpecsCons(specs: Schema)
    requires |specs| > 0 && Seqs.NoDup(SchemaNames(specs))
    ensures var rest := specs[1..];
      SchemaNames(rest) == SchemaNames(specs)[1..] && specs[0].name !in SchemaNames(rest) &&
      Seqs.NoDup(SchemaNames(rest))
    ensures forall f :: IsRequired(specs, f) <==> (f == specs[0].name && specs[0].required) || IsRequired(specs[1..], f)
    ensures forall f | IsRequired(specs[1..], f) :: f in SchemaNames(specs[1..])
    ensures forall f | f in SchemaNames(specs[1..]) :: f in SchemaNames(specs)
  {
    var rest := specs[1..];
    assert SchemaNames(rest) == SchemaNames(specs)[1..];
    forall f
      ensures IsRequired(specs, f) <==> (f == specs[0].name && specs[0].required) || IsRequired(rest, f)
    {
      if IsRequired(rest, f) {
        var i :| 0 <= i < |rest| && rest[i].name == f && rest[i].required;
        assert specs[i + 1] == rest[i];
      }
      if IsRequired(specs, f) && f != specs[0].name {
        var i :| 0 <= i < |specs| && specs[i].name == f && specs[i].required;
        assert rest[i - 1] == specs[i];
      }
    }
    forall f | IsRequired(rest, f)
      ensures f in SchemaNames(rest)
    {
      var i :| 0 <= i < |rest| && rest[i].name == f && rest[i].required;
      assert SchemaNames(rest)[i] == f;
    }
  }

  /** Extending a sound draft only adds used columns. */
  lemma ExtendsUsed(later: Draft, earlier: Draft, columns: seq<string>, names: seq<string>)
    requires Sound(later, columns, names) && Sound(earlier, columns, names) && Extends(later, earlier)
    ensures earlier.used <= later.used
  {
    forall c | c in earlier.used
      ensures c in later.used
    {
      var g :| g in earlier.mappings && earlier.mappings[g].sourceColumn == c;
      assert later.mappings[g].sourceColumn == c;
    }
  }

  /** Step 2 of `auto_map`: every field still unmapped takes its best alias
      match; a required field without one is reported missing. */
  function AliasStep(sc: Variant, specs: Schema, names: seq<string>, columns: seq<string>, d: Draft, missing: seq<string>): (r: (Draft, seq<string>))
    requires Sound(d, columns, names) && forall i :: 0 <= i < |specs| ==> specs[i].name in names
    requires Seqs.NoDup(SchemaNames(specs))
    ensures Sound(r.0, columns, names) && Extends(r.0, d)
    ensures forall f | f in r.0.mappings && f !in d.mappings ::
      f in SchemaNames(specs) && 0.5 <= r.0.mappings[f].confidence <= 1.0
    ensures forall f :: f in r.1 <==> f in missing || (IsRequired(specs, f) && f !in r.0.mappings)
    ensures |missing| <= |r.1| && r.1[..|missing|] == missing
    ensures Seqs.Subseq(r.1[|missing|..], SchemaNames(specs))
    decreases |specs|
  {
    if |specs| == 0 then
      assert missing[|missing|..] == [];
      (d, missing)
    else
      var s := specs[0];
      SpecsCons(specs);
      var step := AliasTurn(sc, s, names, columns, d, missing);
      var r := AliasStep(sc, specs[1..], names, columns, step.0, step.1);
      MissingCons(specs, step.0, r.0, missing, step.1, r.1);
      MissingOrder(specs, missing, step.1, r.1);
      r
  }

  /** The missing list keeps schema order: after the first field's turn
      appends at most that field, the rest of the step appends fields of
      the remaining schema in order. */
  lemma MissingOrder(specs: Schema, missing: seq<string>, m1: seq<string>, m2: seq<string>)
    requires |specs| > 0
    requires m1 == missing || m1 == missing + [specs[0].name]
    requires |m1| <= |m2| && m2[..|m1|] == m1 && Seqs.Subseq(m2[|m1|..], SchemaNames(specs[1..]))
    ensures |missing| <= |m2| && m2[..|missing|] == missing
    ensures Seqs.Subseq(m2[|missing|..], SchemaNames(specs))
  {
    var names := SchemaNames(specs);
    var rest := m2[|m1|..];
    assert names[1..] == SchemaNames(specs[1..]);
    assert names == [specs[0].name] + names[1..];
    Seqs.SubseqCons(rest, names[1..], specs[0].name);
    if m1 != missing {
      var t := m2[|missing|..];
      assert m2[..|missing|] == m1[..|missing|];
      assert t[0] == specs[0].name && t[1..] == rest;
    } else {
      assert m2[|missing|..] == rest;
    }
  }

  /** The missing list after the first field's turn and the rest. */
  lemma MissingCons(specs: Schema, mid: Draft, last: Draft, missing: seq<string>, m1: seq<string>, m2: seq<string>)
    requires |specs| > 0
    requires forall f :: IsRequired(specs, f) <==> (f == specs[0].name && specs[0].required) || IsRequired(specs[1..], f)
    requires specs[0].name !in SchemaNames(specs[1..])
    requires m1 == if specs[0].name !in mid.mappings && specs[0].required then missing + [specs[0].name] else missing
    requires Extends(last, mid)
    requires forall f | f in last.mappings && f !in mid.mappings :: f in SchemaNames(specs[1..])
    requires forall f :: f in m2 <==> f in m1 || (IsRequired(specs[1..], f) && f !in last.mappings)
    ensures forall f :: f in m2 <==> f in missing || (IsRequired(specs, f) && f !in last.mappings)
  {
    var h := specs[0].name;
    assert h in last.mappings <==> h in mid.mappings;
    forall f
      ensures f in m2 <==> f in missing || (IsRequired(specs, f) && f !in last.mappings)
    {
      assert f in m1 <==> f in missing || (f == h && h !in mid.mappings && specs[0].required);
    }
  }

  /** `auto_map`: history matches first, then alias matches; the unmapped
      columns are the unused ones in input order. */
  function AutoMap(sc: Variant, schema: Schema, schemaType: string, history: Option<MappingHistory.History>,
                   columns: seq<string>, clientName: string): (r: MappingResult)
    requires WellFormed(schema)
    ensures forall f | f in r.mappings ::
      f in SchemaNames(schema) && r.mappings[f].targetField == f &&
      r.mappings[f].sourceColumn in columns && r.mappings[f].isAuto && 0.5 <= r.mappings[f].confidence <= 1.0
    ensures Injective(r.mappings)
    ensures r.unmappedColumns == Seqs.Filter(columns, c => c !in Image(r.mappings))
    ensures forall f :: f in r.missingRequired <==> IsRequired(schema, f) && f !in r.mappings
    ensures Seqs.Subseq(r.missingRequired, SchemaNames(schema))
    ensures history.Some? ==> Extends(Draft(r.mappings, Image(r.mappings)), HistoryDraft(sc, schema, schemaType, history.value, columns, clientName))
  {
    var names := SchemaNames(schema);
    var d1 := match history
      case None => Draft(map[], {})
      case Some(h) => HistoryDraft(sc, schema, schemaType, h, columns, clientName);
    var step := AliasStep(sc, schema, names, columns, d1, []);
    assert step.1[0..] == step.1;
    MappingResult(step.0.mappings, Seqs.Filter(columns, c => c !in step.0.used), step.1)
  }

  /** What the history step maps: only fields of some history entry, each
      with confidence 0.95, to a column the entry hits. */
  function HistoryDraft(sc: Variant, schema: Schema, schemaType: string, h: MappingHistory.History,
                        columns: seq<string>, clientName: string): (d: Draft)
    ensures Sound(d, columns, SchemaNames(schema))
    ensures forall f | f in d.mappings ::
      d.mappings[f].confidence == 0.95 &&
      exists e | e in MappingHistory.GetHistoryMappings(h, schemaType, clientName) ::
        e.targetField == f && HistoryHit(sc, h, schemaType, e, d.mappings[f].sourceColumn)
  {
    HistoryStep(sc, h, schemaType, SchemaNames(schema), MappingHistory.GetHistoryMappings(h, schemaType, clientName),
      columns, Draft(map[], {}))
  }

  /** A field the history maps is never remapped by an alias. */
  lemma HistoryMatchesWin(sc: Variant, schema: Schema, schemaType: string, h: MappingHistory.History,
                          columns: seq<string>, clientName: string, f: string)
    requires WellFormed(schema) && f in HistoryDraft(sc, schema, schemaType, h, columns, clientName).mappings
    ensures var r := AutoMap(sc, schema, schemaType, Some(h), columns, clientName);
      f in r.mappings && r.mappings[f].confidence == 0.95 &&
      r.mappings[f] == HistoryDraft(sc, schema, schemaType, h, columns, clientName).mappings[f]
  {
  }

  /** A column spelled exactly like an alias of a field is never left
      over: either that field is mapped, or the column serves another field. */
  lemma ExactAliasMaps(sc: Variant, schema: Schema, schemaType: string, history: Option<MappingHistory.History>,
                       columns: seq<string>, clientName: string, i: int, c: string, a: string)
    requires WellFormed(schema) && 0 <= i < |schema|
    requires c in columns && a in schema[i].aliases && ExactPair((c, a))
    ensures var r := AutoMap(sc, schema, schemaType, history, columns, clientName);
      schema[i].name in r.mappings || c in Image(r.mappings)
  {
    var d1 := match history
      case None => Draft(map[], {})
      case Some(h) => HistoryDraft(sc, schema, schemaType, h, columns, clientName);
    AliasStepMapsExact(sc, schema, SchemaNames(schema), columns, d1, [], i, c, a);
  }

  /** The alias step is the first field's turn, then the rest. */
  lemma AliasStepCons(sc: Variant, specs: Schema, names: seq<string>, columns: seq<string>, d: Draft, missing: seq<string>)
    requires |specs| > 0
    requires Sound(d, columns, names) && forall k :: 0 <= k < |specs| ==> specs[k].name in names
    requires Seqs.NoDup(SchemaNames(specs))
    ensures Seqs.NoDup(SchemaNames(specs[1..]))
    ensures forall k :: 0 <= k < |specs[1..]| ==> specs[1..][k].name in names
    ensures var step := AliasTurn(sc, specs[0], names, columns, d, missing);
      AliasStep(sc, specs, names, columns, d, missing) == AliasStep(sc, specs[1..], names, columns, step.0, step.1)
  {
    SpecsCons(specs);
    assert forall k :: 0 <= k < |specs[1..]| ==> specs[1..][k] == specs[k + 1];
  }

  /** One alias turn maps a field with an exact alias among the columns, or
      finds that column used. */
  lemma TurnMapsExact(sc: Variant, s: FieldSpec, names: seq<string>, columns: seq<string>, d: Draft,
                      missing: seq<string>, c: string, a: string)
    requires Sound(d, columns, names) && s.name in names
    requires c in columns && a in s.aliases && ExactPair((c, a))
    ensures var step := AliasTurn(sc, s, names, columns, d, missing);
      s.name in step.0.mappings || c in step.0.used
  {
    var step := AliasTurn(sc, s, names, columns, d, missing);
    if s.name !in d.mappings && c !in d.used {
      assert HasExact(columns, s.aliases, d.used);
    }
    ExtendsUsed(step.0, d, columns, names);
  }

  /** Inside the alias step: a field with an exact alias among the columns
      ends up mapped, or that column ends up used. */
  lemma {:induction false} AliasStepMapsExact(sc: Variant, specs: Schema, names: seq<string>, columns: seq<string>, d: Draft,
                                              missing: seq<string>, i: int, c: string, a: string)
    requires Sound(d, columns, names) && forall k :: 0 <= k < |specs| ==> specs[k].name in names
    requires Seqs.NoDup(SchemaNames(specs))
    requires 0 <= i < |specs| && c in columns && a in specs[i].aliases && ExactPair((c, a))
    ensures var r := AliasStep(sc, specs, names, columns, d, missing);
      specs[i].name in r.0.mappings || c in r.0.used
    decreases |specs|
  {
    if i == 0 {
      HeadMapsExact(sc, specs, names, columns, d, missing, c, a);
    } else {
      var rest := specs[1..];
      AliasStepCons(sc, specs, names, columns, d, missing);
      var step := AliasTurn(sc, specs[0], names, columns, d, missing);
      assert rest[i - 1] == specs[i];
      AliasStepMapsExact(sc, rest, names, columns, step.0, step.1, i - 1, c, a);
      var r := AliasStep(sc, rest, names, columns, step.0, step.1);
      assert AliasStep(sc, specs, names, columns, d, missing) == r;
      assert specs[i].name in r.0.mappings || c in r.0.used;
    }
  }

  /** The case of the first field: its own turn maps it or finds the column
      used, and the later turns keep both. */
  lemma HeadMapsExact(sc: Variant, specs: Schema, names: seq<string>, columns: seq<string>, d: Draft,
                      missing: seq<string>, c: string, a: string)
    requires Sound(d, columns, names) && forall k :: 0 <= k < |specs| ==> specs[k].name in names
    requires Seqs.NoDup(SchemaNames(specs))
    requires |specs| > 0 && c in columns && a in specs[0].aliases && ExactPair((c, a))
    ensures var r := AliasStep(sc, specs, names, columns, d, missing);
      specs[0].name in r.0.mappings || c in r.0.used
  {
    AliasStepCons(sc, specs, names, columns, d, missing);
    var step := AliasTurn(sc, specs[0], names, columns, d, missing);
    var r := AliasStep(sc, specs[1..], names, columns, step.0, step.1);
    TurnMapsExact(sc, specs[0], names, columns, d, missing, c, a);
    ExtendsUsed(r.0, step.0, columns, names);
  }

  /** As written, a lone column whose normal form is empty is mapped with
      full confidence to the first schema field when no history applies. */
  lemma EmptyColumnMappedAsWritten(schema: Schema, schemaType: string, column: string, clientName: string)
    requires WellFormed(schema) && |schema| > 0 && |schema[0].aliases| > 0
    requires NormalizeColumnName(column) == "" && column != ""
    ensures var r := AutoMap(AsWritten, schema, schemaType, None, [column], clientName);
      schema[0].name in r.mappings && r.mappings[schema[0].name].confidence == 1.0 && r.unmappedColumns == []
  {
    var names := SchemaNames(schema);
    var d := Draft(map[], {});
    assert names[0] == schema[0].name;
    AliasStepCons(AsWritten, schema, names, [column], d, []);
    EmptyNameTakesFullScoreAsWritten(column, schema[0].aliases);
    var step := AliasTurn(AsWritten, schema[0], names, [column], d, []);
    assert step.0.mappings[schema[0].name].confidence == 1.0;
    var r := AliasStep(AsWritten, schema, names, [column], d, []);
    ExtendsUsed(r.0, step.0, [column], names);
    assert column in r.0.used;
  }

  /** With the corrected score, such a column stays unmapped when every
      alias is non-empty. */
  lemma EmptyColumnUnmapped(schema: Schema, schemaType: string, column: string, clientName: string)
    requires WellFormed(schema) && NormalizeColumnName(column) == ""
    requires forall i, a | 0 <= i < |schema| && a in schema[i].aliases :: a != ""
    ensures var r := AutoMap(Corrected, schema, schemaType, None, [column], clientName);
      r.mappings == map[] && r.unmappedColumns == [column]
  {
    var names := SchemaNames(schema);
    forall i | 0 <= i < |schema|
      ensures schema[i].name in names
    {
      assert names[i] == schema[i].name;
    }
    AliasStepMapsNothing(schema, names, column, []);
  }

  /** The corrected alias step maps nothing for a lone column with an empty
      normal form. */
  lemma {:induction false} AliasStepMapsNothing(specs: Schema, names: seq<string>, column: string, missing: seq<string>)
    requires forall k :: 0 <= k < |specs| ==> specs[k].name in names
    requires Seqs.NoDup(SchemaNames(specs)) && NormalizeColumnName(column) == ""
    requires forall i, a | 0 <= i < |specs| && a in specs[i].aliases :: a != ""
    ensures AliasStep(Corrected, specs, names, [column], Draft(map[], {}), missing).0 == Draft(map[], {})
    decreases |specs|
  {
    var d := Draft(map[], {});
    if |specs| > 0 {
      AliasStepCons(Corrected, specs, names, [column], d, missing);
      EmptyNameNeverMatches(column, specs[0].aliases);
      var step := AliasTurn(Corrected, specs[0], names, [column], d, missing);
      assert step.0 == d;
      forall i, a | 0 <= i < |specs[1..]| && a in specs[1..][i].aliases
        ensures a != ""
      {
        assert specs[1..][i] == specs[i + 1];
      }
      AliasStepMapsNothing(specs[1..], names, column, step.1);
    }
  }

  /** As written, the entry recorded for the column "A-" is never hit by
      that same column. */
  lemma RecordedEntryMissedAsWritten(h: MappingHistory.History, schemaType: string, e: MappingHistory.Entry, column: string)
    requires column == "A-" && e.sourceColumn == HistoryKey(column)
    ensures !HistoryHit(AsWritten, h, schemaType, e, column)
  {
    RecordedColumnMissedAsWritten();
  }

  // ---------------------------------------------------------------------
  // get_suggestions
  // ---------------------------------------------------------------------

  predicate HasExactAlias(norm: string, aliases: seq<string>)
  {
    exists a | a in aliases :: IsExact(norm, a)
  }

  /** A field's score for a normalised name: 1.0 at the first exact alias,
      otherwise the best partial score. */
  function FieldConfidence(sc: Variant, norm: string, aliases: seq<string>): (r: real)
    ensures 0.0 <= r <= 1.0
    ensures HasExactAlias(norm, aliases) ==> r == 1.0
    ensures sc == Corrected ==> (r == 1.0 <==> HasExactAlias(norm, aliases))
    ensures forall a | a in aliases :: AliasScore(sc, norm, a) <= r
    ensures r == 0.0 || r == 1.0 || exists a | a in aliases :: AliasScore(sc, norm, a) == r
  {
    if |aliases| == 0 then 0.0
    else if IsExact(norm, aliases[0]) then 1.0
    else
      var here := AliasScore(sc, norm, aliases[0]);
      var rest := FieldConfidence(sc, norm, aliases[1..]);
      assert forall a :: a in aliases <==> a == aliases[0] || a in aliases[1..];
      if here > rest then here else rest
  }

  function Confidence(p: (string, real)): real
  {
    p.1
  }

  /** The scored field at position `i` of the schema. */
  function FieldSuggestion(sc: Variant, schema: Schema, norm: string, i: int): (string, real)
    requires 0 <= i < |schema|
  {
    (schema[i].name, FieldConfidence(sc, norm, schema[i].aliases))
  }

  /** A suggestion the schema gives for the normalised name. */
  predicate Suggests(sc: Variant, schema: Schema, norm: string, p: (string, real))
  {
    p.1 > 0.0 && exists i :: 0 <= i < |schema| && p == FieldSuggestion(sc, schema, norm, i)
  }

  function AllSuggestions(sc: Variant, schema: Schema, norm: string): (r: seq<(string, real)>)
    ensures |r| == |schema| && forall i :: 0 <= i < |schema| ==> r[i] == FieldSuggestion(sc, schema, norm, i)
  {
    seq(|schema|, i requires 0 <= i < |schema| => FieldSuggestion(sc, schema, norm, i))
  }

  predicate Positive(p: (string, real))
  {
    p.1 > 0.0
  }

  /** `get_suggestions`: every field with a positive score, best first;
      fields of equal score keep schema order. */
  function GetSuggestions(sc: Variant, schema: Schema, column: string): (r: seq<(string, real)>)
    ensures Sorting.SortedDesc(r, Confidence)
    ensures |r| <= |schema|
    ensures forall p | p in r :: 0.0 < p.1 <= 1.0
    ensures forall p :: p in r <==> Suggests(sc, schema, NormalizeColumnName(column), p)
  {
    var norm := NormalizeColumnName(column);
    var all := AllSuggestions(sc, schema, norm);
    var kept := Seqs.Filter(all, Positive);
    assert forall p :: p in kept <==> Suggests(sc, schema, norm, p) by {
      forall p
        ensures p in kept <==> Suggests(sc, schema, norm, p)
      {
        if p in all {
          var k :| 0 <= k < |all| && all[k] == p;
        }
        if Suggests(sc, schema, norm, p) {
          var k :| 0 <= k < |schema| && p == FieldSuggestion(sc, schema, norm, k);
          assert all[k] == p;
        }
      }
    }
    var r := Sorting.SortDesc(kept, Confidence);
    assert forall p :: p in r <==> p in multiset(r);
    assert forall p :: p in kept <==> p in multiset(kept);
    r
  }

  /** An exact alias puts its field among the suggestions at 1.0; with the
      corrected score only an exact alias does. */
  lemma SuggestionsExact(sc: Variant, schema: Schema, column: string, i: int)
    requires WellFormed(schema) && 0 <= i < |schema|
    ensures HasExactAlias(NormalizeColumnName(column), schema[i].aliases) ==>
      (schema[i].name, 1.0) in GetSuggestions(sc, schema, column)
    ensures sc == Corrected && (schema[i].name, 1.0) in GetSuggestions(sc, schema, column) ==>
      HasExactAlias(NormalizeColumnName(column), schema[i].aliases)
  {
    var norm := NormalizeColumnName(column);
    if Suggests(sc, schema, norm, (schema[i].name, 1.0)) {
      SuggestedFieldIsOwn(sc, schema, norm, i);
    }
    if HasExactAlias(norm, schema[i].aliases) {
      assert (schema[i].name, 1.0) == FieldSuggestion(sc, schema, norm, i);
    }
  }

  /** In a schema of distinct names, a suggestion carrying field i's name
      carries field i's own confidence. */
  lemma SuggestedFieldIsOwn(sc: Variant, schema: Schema, norm: string, i: int)
    requires WellFormed(schema) && 0 <= i < |schema|
    requires Suggests(sc, schema, norm, (schema[i].name, 1.0))
    ensures FieldConfidence(sc, norm, schema[i].aliases) == 1.0
  {
    var k :| 0 <= k < |schema| && (schema[i].name, 1.0) == FieldSuggestion(sc, schema, norm, k);
    assert SchemaNames(schema)[k] == SchemaNames(schema)[i];
    assert k == i;
  }

  /** As written, a name strictly inside a longer alias is suggested with
      full confidence too, exactly as if it matched that alias. */
  lemma ContainedNameSuggestedFullAsWritten(schema: Schema, column: string, i: int, a: string)
    requires 0 <= i < |schema| && a in schema[i].aliases
    requires NormalizeColumnName(column) != Lower(a) && Contains(Lower(a), NormalizeColumnName(column))
    ensures (schema[i].name, 1.0) in GetSuggestions(AsWritten, schema, column)
  {
    var norm := NormalizeColumnName(column);
    ContainsShorter(Lower(a), norm);
    assert AliasScore(AsWritten, norm, a) == 1.0;
    assert FieldSuggestion(AsWritten, schema, norm, i) == (schema[i].name, 1.0);
  }

  /** Suggestions of equal score appear in schema order. */
  lemma SuggestionsStable(sc: Variant, schema: Schema, column: string, k: real)
    ensures var all := AllSuggestions(sc, schema, NormalizeColumnName(column));
      Sorting.WithKey(GetSuggestions(sc, schema, column), Confidence, k) ==
      Sorting.WithKey(Seqs.Filter(all, Positive), Confidence, k)
  {
    Sorting.SortDescStable(Seqs.Filter(AllSuggestions(sc, schema, NormalizeColumnName(column)), Positive), Confidence, k);
  }

  // ---------------------------------------------------------------------
  // record_user_corrections
  // ---------------------------------------------------------------------

  /** The user changed the field's column, added the field, or confirmed it
      by hand. */
  predicate IsCorrection(original: MappingResult, final: MappingResult, f: string)
  {
    f in final.mappings &&
    (f !in original.mappings || original.mappings[f].sourceColumn != final.mappings[f].sourceColumn ||
     !final.mappings[f].isAuto)
  }

  /** The history holds the pair, marked as a user correction. */
  predicate HasCorrectionEntry(entries: seq<MappingHistory.Entry>, key: string, target: string)
  {
    exists i :: 0 <= i < |entries| && MappingHistory.IsPair(entries[i], key, target) && entries[i].isUserCorrection
  }

  /** Entries keep their place, their pair and a raised correction flag. */
  predicate Stable(before: seq<MappingHistory.Entry>, after: seq<MappingHistory.Entry>)
  {
    |after| >= |before| &&
    forall i :: 0 <= i < |before| ==>
      after[i].sourceColumn == before[i].sourceColumn && after[i].targetField == before[i].targetField &&
      (before[i].isUserCorrection ==> after[i].isUserCorrection)
  }

  /** One recorded correction. */
  lemma RecordCorrectionStep(h: MappingHistory.History, sourceColumn: string, targetField: string, schemaType: string,
                             clientName: string)
    ensures var before := MappingHistory.EntriesOf(h, schemaType);
      var after := MappingHistory.EntriesOf(
        MappingHistory.RecordMapping(h, sourceColumn, targetField, schemaType, clientName, true), schemaType);
      Stable(before, after) &&
      (forall i :: 0 <= i < |before| && before[i].targetField != targetField ==> after[i] == before[i]) &&
      (forall i :: |before| <= i < |after| ==> after[i].targetField == targetField && after[i].isUserCorrection) &&
      HasCorrectionEntry(after, MappingHistory.Normalize(sourceColumn), targetField)
  {
    var before := MappingHistory.EntriesOf(h, schemaType);
    var after := MappingHistory.EntriesOf(
      MappingHistory.RecordMapping(h, sourceColumn, targetField, schemaType, clientName, true), schemaType);
    var key := MappingHistory.Normalize(sourceColumn);
    match MappingHistory.FindPair(before, key, targetField)
    case Some(i) =>
      assert MappingHistory.IsPair(after[i], key, targetField);
    case None =>
      assert MappingHistory.IsPair(after[|before|], key, targetField);
  }

  /** One iteration of the loop: record the field when it is a correction. */
  function RecordIfCorrected(h: MappingHistory.History, schemaType: string, original: MappingResult,
                             final: MappingResult, f: string, clientName: string): (r: MappingHistory.History)
    requires f in final.mappings
    ensures r == if IsCorrection(original, final, f)
      then MappingHistory.RecordMapping(h, final.mappings[f].sourceColumn, f, schemaType, clientName, true)
      else h
    ensures var before := MappingHistory.EntriesOf(h, schemaType);
      var mid := MappingHistory.EntriesOf(r, schemaType);
      IsCorrection(original, final, f) ==>
        Stable(before, mid) &&
        (forall i :: 0 <= i < |before| && before[i].targetField != f ==> mid[i] == before[i]) &&
        (forall i :: |before| <= i < |mid| ==> mid[i].targetField == f && mid[i].isUserCorrection) &&
        HasCorrectionEntry(mid, MappingHistory.Normalize(final.mappings[f].sourceColumn), f)
  {
    if IsCorrection(original, final, f) then
      RecordCorrectionStep(h, final.mappings[f].sourceColumn, f, schemaType, clientName);
      MappingHistory.RecordMapping(h, final.mappings[f].sourceColumn, f, schemaType, clientName, true)
    else h
  }

  /** Stable entries keep every correction entry. */
  lemma StableKeepsCorrection(before: seq<MappingHistory.Entry>, after: seq<MappingHistory.Entry>, key: string, target: string)
    requires Stable(before, after) && HasCorrectionEntry(before, key, target)
    ensures HasCorrectionEntry(after, key, target)
  {
    var i :| 0 <= i < |before| && MappingHistory.IsPair(before[i], key, target) && before[i].isUserCorrection;
    assert MappingHistory.IsPair(after[i], key, target) && after[i].isUserCorrection;
  }

  predicate CorrectedIn(original: MappingResult, final: MappingResult, order: seq<string>, f: string)
  {
    f in order && IsCorrection(original, final, f)
  }

  /** The loop over the final mapping's fields in `order`. */
  function {:induction false} RecordAll(h: MappingHistory.History, schemaType: string, original: MappingResult,
                                        final: MappingResult, order: seq<string>, clientName: string): (r: MappingHistory.History)
    requires forall f | f in order :: f in final.mappings
    ensures r.blacklist == h.blacklist
    ensures forall k | k in h.mappings && k != schemaType :: k in r.mappings && r.mappings[k] == h.mappings[k]
    ensures (forall f | f in order :: !IsCorrection(original, final, f)) ==> r == h
    ensures var before := MappingHistory.EntriesOf(h, schemaType);
      var after := MappingHistory.EntriesOf(r, schemaType);
      Stable(before, after) &&
      (forall i :: 0 <= i < |before| && !CorrectedIn(original, final, order, before[i].targetField) ==> after[i] == before[i]) &&
      (forall i :: |before| <= i < |after| ==>
        CorrectedIn(original, final, order, after[i].targetField) && after[i].isUserCorrection) &&
      forall f | CorrectedIn(original, final, order, f) ::
        HasCorrectionEntry(after, MappingHistory.Normalize(final.mappings[f].sourceColumn), f)
    decreases |order|
  {
    if |order| == 0 then h
    else
      var f := order[0];
      var next := RecordIfCorrected(h, schemaType, original, final, f, clientName);
      var r := RecordAll(next, schemaType, original, final, order[1..], clientName);
      RecordAllCompose(h, next, r, schemaType, original, final, order, clientName);
      r
  }

  /** The inductive step of `RecordAll`'s contract. */
  lemma RecordAllCompose(h: MappingHistory.History, next: MappingHistory.History, r: MappingHistory.History,
                         schemaType: string, original: MappingResult, final: MappingResult, order: seq<string>,
                         clientName: string)
    requires |order| > 0 && forall f | f in order :: f in final.mappings
    requires var f := order[0];
      next == if IsCorrection(original, final, f)
        then MappingHistory.RecordMapping(h, final.mappings[f].sourceColumn, f, schemaType, clientName, true)
        else h
    requires var before := MappingHistory.EntriesOf(h, schemaType);
      var mid := MappingHistory.EntriesOf(next, schemaType);
      var f := order[0];
      IsCorrection(original, final, f) ==>
        Stable(before, mid) &&
        (forall i :: 0 <= i < |before| && before[i].targetField != f ==> mid[i] == before[i]) &&
        (forall i :: |before| <= i < |mid| ==> mid[i].targetField == f && mid[i].isUserCorrection) &&
        HasCorrectionEntry(mid, MappingHistory.Normalize(final.mappings[f].sourceColumn), f)
    requires var mid := MappingHistory.EntriesOf(next, schemaType);
      var after := MappingHistory.EntriesOf(r, schemaType);
      var rest := order[1..];
      Stable(mid, after) &&
      (forall i :: 0 <= i < |mid| && !CorrectedIn(original, final, rest, mid[i].targetField) ==> after[i] == mid[i]) &&
      (forall i :: |mid| <= i < |after| ==> CorrectedIn(original, final, rest, after[i].targetField) && after[i].isUserCorrection) &&
      forall g | CorrectedIn(original, final, rest, g) ::
        HasCorrectionEntry(after, MappingHistory.Normalize(final.mappings[g].sourceColumn), g)
    ensures var before := MappingHistory.EntriesOf(h, schemaType);
      var after := MappingHistory.EntriesOf(r, schemaType);
      Stable(before, after) &&
      (forall i :: 0 <= i < |before| && !CorrectedIn(original, final, order, before[i].targetField) ==> after[i] == before[i]) &&
      (forall i :: |before| <= i < |after| ==>
        CorrectedIn(original, final, order, after[i].targetField) && after[i].isUserCorrection) &&
      forall g | CorrectedIn(original, final, order, g) ::
        HasCorrectionEntry(after, MappingHistory.Normalize(final.mappings[g].sourceColumn), g)
  {
    var before := MappingHistory.EntriesOf(h, schemaType);
    var mid := MappingHistory.EntriesOf(next, schemaType);
    var after := MappingHistory.EntriesOf(r, schemaType);
    var f := order[0];
    var rest := order[1..];
    assert forall g :: CorrectedIn(original, final, rest, g) ==> CorrectedIn(original, final, order, g);
    assert forall g :: CorrectedIn(original, final, order, g) ==> g == f || CorrectedIn(original, final, rest, g);
    forall g | CorrectedIn(original, final, order, g)
      ensures HasCorrectionEntry(after, MappingHistory.Normalize(final.mappings[g].sourceColumn), g)
    {
      if !CorrectedIn(original, final, rest, g) {
        StableKeepsCorrection(mid, after, MappingHistory.Normalize(final.mappings[f].sourceColumn), f);
      }
    }
  }

  /** `record_user_corrections`: without a history service nothing happens;
      otherwise every corrected field's pair is stored as a user correction,
      entries for other fields stay as they were, and new entries are
      corrections. `order` is the iteration order of the final mapping. */
  function RecordUserCorrections(history: Option<MappingHistory.History>, schemaType: string, original: MappingResult,
                                 final: MappingResult, order: seq<string>, clientName: string): (r: Option<MappingHistory.History>)
    requires forall f :: f in order <==> f in final.mappings
    ensures r.None? <==> history.None?
    ensures r.Some? ==> r.value.blacklist == history.value.blacklist
    ensures r.Some? ==> forall k | k in history.value.mappings && k != schemaType ::
      k in r.value.mappings && r.value.mappings[k] == history.value.mappings[k]
    ensures r.Some? && (forall f | f in final.mappings :: !IsCorrection(original, final, f)) ==> r == history
    ensures r.Some? ==>
      var before := MappingHistory.EntriesOf(history.value, schemaType);
      var after := MappingHistory.EntriesOf(r.value, schemaType);
      Stable(before, after) &&
      (forall i :: 0 <= i < |before| && !IsCorrection(original, final, before[i].targetField) ==> after[i] == before[i]) &&
      (forall i :: |before| <= i < |after| ==> IsCorrection(original, final, after[i].targetField) && after[i].isUserCorrection) &&
      forall f | IsCorrection(original, final, f) ::
        HasCorrectionEntry(after, MappingHistory.Normalize(final.mappings[f].sourceColumn), f)
  {
    match history
    case None => None
    case Some(h) => Some(RecordAll(h, schemaType, original, final, order, clientName))
  }

  /** Accepting an automatic mapping unchanged records nothing. */
  lemma AcceptingAutoMapRecordsNothing(sc: Variant, schema: Schema, schemaType: string, h: MappingHistory.History,
                                       columns: seq<string>, clientName: string, order: seq<string>)
    requires WellFormed(schema)
    requires var m := AutoMap(sc, schema, schemaType, Some(h), columns, clientName);
      forall f :: f in order <==> f in m.mappings
    ensures var m := AutoMap(sc, schema, schemaType, Some(h), columns, clientName);
      RecordUserCorrections(Some(h), schemaType, m, m, order, clientName) == Some(h)
  {
  }
}
