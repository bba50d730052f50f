/** The pure decisions of the file reader: the file type from the
    extension, the CSV separator from sample lines, the encoding from the
    first bytes, and the cleaning of column names. */
module Readers {
  import opened Wrappers
  import opened Ascii

  datatype FileType = Xlsx | Csv | Txt

  /** The last path component (`Path.name`). */
  function BaseName(path: string): (r: string)
    ensures '/' !in r
    ensures |r| <= |path| && r == path[|path| - |r|..]
  {
    if |path| == 0 then ""
    else if path[|path| - 1] == '/' then ""
    else
      var rest := BaseName(path[..|path| - 1]);
      assert path[..|path| - 1][|path| - 1 - |rest|..] == path[|path| - 1 - |rest|..|path| - 1];
      rest + [path[|path| - 1]]
  }

  /** The position of the last `c` in `s`, if any. */
  function LastIndexOf(s: string, c: char): (r: Option<nat>)
    ensures r.Some? ==> r.value < |s| && s[r.value] == c && forall j :: r.value < j < |s| ==> s[j] != c
    ensures r.None? <==> c !in s
  {
    if |s| == 0 then None
    else if s[|s| - 1] == c then Some(|s| - 1)
    else
      assert forall x :: x in s <==> x in s[..|s| - 1] || x == s[|s| - 1];
      LastIndexOf(s[..|s| - 1], c)
  }

  /** `Path.suffix`: from the last dot of the name, unless that dot starts
      or ends the name. */
  function Suffix(path: string): (r: string)
    ensures r == "" || (r[0] == '.' && 2 <= |r| && '.' !in r[1..] && '/' !in r)
    ensures r != "" ==> EndsWith(path, r) && |r| < |BaseName(path)|
  {
    var name := BaseName(path);
    match LastIndexOf(name, '.')
    case None => ""
    case Some(i) =>
      if 0 < i < |name| - 1 then
        assert name[i..][1..] == name[i + 1..];
        assert forall x :: x in name[i..] ==> x in name;
        name[i..]
      else ""
  }

  /** `EXTENSION_MAP`. */
  function ExtensionType(ext: string): (r: Option<FileType>)
    ensures r.Some? <==> ext in [".xlsx", ".xls", ".csv", ".txt", ".tsv"]
  {
    if ext == ".xlsx" || ext == ".xls" then Some(Xlsx)
    else if ext == ".csv" then Some(Csv)
    else if ext == ".txt" || ext == ".tsv" then Some(Txt)
    else None
  }

  /** `detect_file_type`: the lower-cased suffix looked up; an unknown one
      is an error naming it. */
  function DetectFileType(path: string): (r: Result<FileType>)
    ensures r.Ok? <==> Lower(Suffix(path)) in [".xlsx", ".xls", ".csv", ".txt", ".tsv"]
    ensures r.Ok? ==> Some(r.value) == ExtensionType(Lower(Suffix(path)))
    ensures r.Err? ==> r.error == "Nieobslugiwane rozszerzenie: " + Lower(Suffix(path))
  {
    var ext := Lower(Suffix(path));
    match ExtensionType(ext)
    case Some(t) => Ok(t)
    case None => Err("Nieobslugiwane rozszerzenie: " + ext)
  }

  /** The extension decides regardless of case: `DATA.CSV` and `data.csv`
      are both comma files. */
  lemma FileTypeIgnoresCase(a: string, b: string)
    requires Lower(Suffix(a)) == Lower(Suffix(b))
    ensures DetectFileType(a) == DetectFileType(b)
  {
  }

  /** `COMMON_SEPARATORS`, in the order ties are broken. */
  const Separators: seq<char> := [';', ',', '\t', '|']

  /** The separator's count summed over the sample lines. */
  function Total(lines: seq<string>, c: char): (n: nat)
    ensures n == 0 <==> forall i :: 0 <= i < |lines| ==> c !in lines[i]
  {
    if |lines| == 0 then 0 else CountChar(lines[0], c) + Total(lines[1..], c)
  }

  /** The position of the first separator with the largest total (`max`
      over the dict keeps the first maximum). */
  function Busiest(lines: seq<string>, seps: seq<char>): (k: nat)
    requires |seps| > 0
    ensures k < |seps|
    ensures forall j :: 0 <= j < |seps| ==> Total(lines, seps[j]) <= Total(lines, seps[k])
    ensures forall j :: 0 <= j < k ==> Total(lines, seps[j]) < Total(lines, seps[k])
  {
    if |seps| == 1 then 0
    else
      var rest := Busiest(lines, seps[1..]);
      if Total(lines, seps[0]) >= Total(lines, seps[1 + rest]) then 0 else 1 + rest
  }

  /** `detect_separator` on the given sample lines: the separator with the
      largest total, the earliest of equals, and "," when none occurs. */
  function DetectSeparator(lines: seq<string>): (r: char)
    ensures r in Separators
    ensures (forall s | s in Separators :: Total(lines, s) == 0) ==> r == ','
    ensures (exists s | s in Separators :: Total(lines, s) > 0) ==>
      (forall s | s in Separators :: Total(lines, s) <= Total(lines, r)) &&
      forall j, k :: 0 <= j < k < |Separators| && Separators[k] == r ==> Total(lines, Separators[j]) < Total(lines, r)
  {
    var best := Separators[Busiest(lines, Separators)];
    if Total(lines, best) == 0 then ',' else best
  }

  /** Sample lines holding only one kind of separator choose it. */
  lemma OnlySeparatorChosen(lines: seq<string>, c: char)
    requires c in Separators && Total(lines, c) > 0
    requires forall s | s in Separators && s != c :: Total(lines, s) == 0
    ensures DetectSeparator(lines) == c
  {
  }

  /** A tie goes to the earlier separator: when `;` is among the most
      frequent, it is chosen. */
  lemma TieGoesToSemicolon(lines: seq<string>)
    requires Total(lines, ';') > 0 && forall s | s in Separators :: Total(lines, s) <= Total(lines, ';')
    ensures DetectSeparator(lines) == ';'
  {
    var r := DetectSeparator(lines);
    assert Separators[0] == ';' && Separators[1] == ',' && Separators[2] == '\t' && Separators[3] == '|';
  }

  newtype byte = x: int | 0 <= x < 256

  const Bom: seq<byte> := [0xEF, 0xBB, 0xBF]

  /** `detect_encoding`: the content is `None` when the file cannot be
      opened; only a UTF-8 byte-order mark gives "utf-8-sig". */
  function DetectEncoding(content: Option<seq<byte>>): (r: string)
    ensures r == "utf-8-sig" || r == "utf-8"
    ensures r == "utf-8-sig" <==> content.Some? && |content.value| >= 3 && content.value[..3] == Bom
  {
    match content
    case None => "utf-8"
    case Some(bytes) =>
      var first := if |bytes| <= 3 then bytes else bytes[..3];
      if first == Bom then "utf-8-sig" else "utf-8"
  }

  /** Whatever follows a byte-order mark, the file reads as "utf-8-sig";
      content that does not start with 0xEF reads as "utf-8". */
  lemma BomDecides(rest: seq<byte>)
    ensures DetectEncoding(Some(Bom + rest)) == "utf-8-sig"
    ensures |rest| > 0 && rest[0] != 0xEF ==> DetectEncoding(Some(rest)) == "utf-8"
  {
    assert (Bom + rest)[..3] == Bom;
  }

  predicate IsNameChar(c: char)
  {
    IsAlnum(c) || c == '_'
  }

  /** One column name of `_normalize_columns`: stripped, lower-cased,
      spaces to underscores, then only letters, digits and underscores. */
  function NormalizeColumn(name: string): (r: string)
    ensures forall i :: 0 <= i < |r| ==> IsNameChar(r[i]) && !IsUpper(r[i]) && r[i] != ' '
    ensures |r| <= |name|
  {
    var t := MapChar(Lower(Strip(name)), ' ', '_');
    assert forall c | c in t :: !IsUpper(c);
    KeepWhere(t, IsNameChar)
  }

  /** Cleaning a cleaned name changes nothing. */
  lemma NormalizeColumnIdempotent(name: string)
    ensures NormalizeColumn(NormalizeColumn(name)) == NormalizeColumn(name)
  {
    var r := NormalizeColumn(name);
    StripKeeps(r);
    LowerKeeps(r);
    MapCharKeeps(r, ' ', '_');
  }

  /** A name already made of lower-case letters, digits and underscores
      is kept as it is. */
  lemma CleanNameKept(name: string)
    requires forall i :: 0 <= i < |name| ==> IsNameChar(name[i]) && !IsUpper(name[i])
    ensures NormalizeColumn(name) == name
  {
    StripKeeps(name);
    LowerKeeps(name);
    MapCharKeeps(name, ' ', '_');
  }

  /** `_normalize_columns`: every column renamed in place. */
  function NormalizeColumns(columns: seq<string>): (r: seq<string>)
    ensures |r| == |columns| && forall i :: 0 <= i < |columns| ==> r[i] == NormalizeColumn(columns[i])
  {
    seq(|columns|, i requires 0 <= i < |columns| => NormalizeColumn(columns[i]))
  }
}
