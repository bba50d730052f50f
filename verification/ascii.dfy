/** ASCII character classes and the Python `str` operations the program uses
    (`lower`, `upper`, `strip`, `replace`, `in`, `endswith`, `<` on strings).
    Only ASCII is modelled: every non-ASCII character is neither a letter, a
    digit nor whitespace here. */
module Ascii {
  import Seqs

  /** Python `str.isspace` restricted to ASCII: space, `\t` `\n` `\v` `\f` `\r`
      and the separators 0x1C..0x1F. The regular expression `\s` matches the
      same set. */
  predicate IsSpace(c: char)
  {
    c == ' ' || (9 <= c as int <= 13) || (28 <= c as int <= 31)
  }

  predicate IsLower(c: char) { 'a' <= c <= 'z' }
  predicate IsUpper(c: char) { 'A' <= c <= 'Z' }
  predicate IsDigit(c: char) { '0' <= c <= '9' }
  predicate IsAlnum(c: char) { IsLower(c) || IsUpper(c) || IsDigit(c) }

  function ToLower(c: char): (r: char)
    ensures !IsUpper(r)
    ensures IsAlnum(r) <==> IsAlnum(c)
    ensures IsSpace(r) <==> IsSpace(c)
  {
    if IsUpper(c) then (c as int + 32) as char else c
  }

  function ToUpper(c: char): (r: char)
    ensures !IsLower(r)
    ensures IsAlnum(r) <==> IsAlnum(c)
    ensures IsSpace(r) <==> IsSpace(c)
  {
    if IsLower(c) then (c as int - 32) as char else c
  }

  /** Python `s.lower()`. */
  function Lower(s: string): (r: string)
    ensures |r| == |s|
    ensures forall i :: 0 <= i < |r| ==> !IsUpper(r[i])
  {
    seq(|s|, i requires 0 <= i < |s| => ToLower(s[i]))
  }

  /** Python `s.upper()`. */
  function Upper(s: string): (r: string)
    ensures |r| == |s|
    ensures forall i :: 0 <= i < |r| ==> !IsLower(r[i])
  {
    seq(|s|, i requires 0 <= i < |s| => ToUpper(s[i]))
  }

  /** Length of the longest prefix of `s` whose characters all satisfy `p`. */
  function LeadingCount(s: string, p: char -> bool): (k: nat)
    ensures k <= |s|
    ensures forall i :: 0 <= i < k ==> p(s[i])
    ensures k < |s| ==> !p(s[k])
  {
    if |s| > 0 && p(s[0]) then 1 + LeadingCount(s[1..], p) else 0
  }

  /** Length of the longest suffix of `s` whose characters all satisfy `p`. */
  function TrailingCount(s: string, p: char -> bool): (k: nat)
    ensures k <= |s|
    ensures forall i :: |s| - k <= i < |s| ==> p(s[i])
    ensures k < |s| ==> !p(s[|s| - k - 1])
  {
    if |s| > 0 && p(s[|s| - 1]) then 1 + TrailingCount(s[..|s| - 1], p) else 0
  }

  /** Trailing characters satisfying `p` removed (Python `rstrip(chars)`). */
  function RStripWhile(s: string, p: char -> bool): (r: string)
    ensures |r| <= |s| && r == s[..|r|]
    ensures |r| > 0 ==> !p(r[|r| - 1])
    ensures forall i :: |r| <= i < |s| ==> p(s[i])
  {
    s[..|s| - TrailingCount(s, p)]
  }

  /** Python `s.strip()`: whitespace removed at both ends. */
  function Strip(s: string): (r: string)
    ensures |r| <= |s|
    ensures |r| > 0 ==> !IsSpace(r[0]) && !IsSpace(r[|r| - 1])
    ensures (forall i :: 0 <= i < |s| ==> !IsSpace(s[i])) ==> r == s
    ensures forall i :: 0 <= i < |r| ==> r[i] in s
  {
    var t := RStripWhile(s, IsSpace);
    t[LeadingCount(t, IsSpace)..]
  }

  /** Characters of `s` satisfying `p`, in order (a character-class filter). */
  function KeepWhere(s: string, p: char -> bool): (r: string)
    ensures forall i :: 0 <= i < |r| ==> p(r[i]) && r[i] in s
    ensures |r| <= |s|
    ensures (forall i :: 0 <= i < |s| ==> p(s[i])) ==> r == s
  {
    if |s| == 0 then ""
    else if p(s[0]) then [s[0]] + KeepWhere(s[1..], p)
    else KeepWhere(s[1..], p)
  }

  /** Python `re.sub(r"\s+", "", s)`: every whitespace character removed. */
  function RemoveSpaces(s: string): (r: string)
    ensures forall i :: 0 <= i < |r| ==> !IsSpace(r[i])
  {
    KeepWhere(s, c => !IsSpace(c))
  }

  /** Python `s.replace(a, b)` for single characters `a` and `b`. */
  function MapChar(s: string, a: char, b: char): (r: string)
    ensures |r| == |s|
    ensures a != b ==> forall i :: 0 <= i < |r| ==> r[i] != a
  {
    seq(|s|, i requires 0 <= i < |s| => if s[i] == a then b else s[i])
  }

  predicate StartsWith(s: string, pre: string)
  {
    |pre| <= |s| && s[..|pre|] == pre
  }

  /** Python `s.endswith(suf)`. */
  predicate EndsWith(s: string, suf: string)
  {
    |suf| <= |s| && s[|s| - |suf|..] == suf
  }

  /** Python `sub in s` for strings (the empty string is in every string). */
  predicate Contains(s: string, sub: string)
    decreases |s|
  {
    StartsWith(s, sub) || (|s| > 0 && Contains(s[1..], sub))
  }

  /** Python `s.count(c)` for a one-character pattern. */
  function CountChar(s: string, c: char): (n: nat)
    ensures n <= |s|
    ensures n == 0 <==> c !in s
  {
    if |s| == 0 then 0
    else
      assert forall x :: x in s <==> x == s[0] || x in s[1..];
      (if s[0] == c then 1 else 0) + CountChar(s[1..], c)
  }

  /** A pattern whose first character is absent from `s` is not in `s`. */
  lemma {:induction false} FirstCharAbsent(s: string, sub: string)
    requires |sub| > 0 && sub[0] !in s
    ensures !Contains(s, sub)
    decreases |s|
  {
    if |s| > 0 {
      assert s[0] in s;
      assert forall c :: c in s[1..] ==> c in s;
      FirstCharAbsent(s[1..], sub);
    }
  }

  /** A pattern found at position `k` is in `s`. */
  lemma {:induction false} ContainsAt(s: string, k: nat, sub: string)
    requires k <= |s| && StartsWith(s[k..], sub)
    ensures Contains(s, sub)
    decreases k
  {
    if k == 0 {
      assert s[0..] == s;
    } else {
      assert s[1..][k - 1..] == s[k..];
      ContainsAt(s[1..], k - 1, sub);
    }
  }

  /** Python `s.replace(pat, rep)`: left-to-right, non-overlapping; an empty
      `pat` inserts `rep` before every character and at the end. */
  function Replace(s: string, pat: string, rep: string): (r: string)
    ensures |pat| > 0 && !Contains(s, pat) ==> r == s
    decreases |s|
  {
    if |pat| == 0 then ReplaceEmpty(s, rep)
    else if |s| < |pat| then s
    else if s[..|pat|] == pat then rep + Replace(s[|pat|..], pat, rep)
    else [s[0]] + Replace(s[1..], pat, rep)
  }

  function ReplaceEmpty(s: string, rep: string): (r: string)
    ensures |r| == |s| + (|s| + 1) * |rep|
  {
    if |s| == 0 then rep else rep + [s[0]] + ReplaceEmpty(s[1..], rep)
  }

  /** Every character of a replacement's result comes from the input or
      from the replacement text. */
  lemma {:induction false} ReplaceChars(s: string, pat: string, rep: string)
    ensures forall c | c in Replace(s, pat, rep) :: c in s || c in rep
    decreases |s|
  {
    if |pat| == 0 {
      ReplaceEmptyChars(s, rep);
    } else if |s| >= |pat| {
      if s[..|pat|] == pat {
        ReplaceChars(s[|pat|..], pat, rep);
        assert forall c | c in s[|pat|..] :: c in s;
      } else {
        ReplaceChars(s[1..], pat, rep);
        assert forall c | c in s[1..] :: c in s;
      }
    }
  }

  lemma {:induction false} ReplaceEmptyChars(s: string, rep: string)
    ensures forall c | c in ReplaceEmpty(s, rep) :: c in s || c in rep
  {
    if |s| > 0 {
      ReplaceEmptyChars(s[1..], rep);
      assert forall c | c in s[1..] :: c in s;
    }
  }

  /** The steps of a normaliser that find nothing to change leave the
      string as it is. */
  lemma LowerKeeps(s: string)
    requires forall i :: 0 <= i < |s| ==> !IsUpper(s[i])
    ensures Lower(s) == s
  {
  }

  lemma StripKeeps(s: string)
    requires |s| > 0 ==> !IsSpace(s[0]) && !IsSpace(s[|s| - 1])
    ensures Strip(s) == s
  {
    assert TrailingCount(s, IsSpace) == 0;
    assert LeadingCount(s, IsSpace) == 0;
  }

  lemma MapCharKeeps(s: string, a: char, b: char)
    requires forall i :: 0 <= i < |s| ==> s[i] != a
    ensures MapChar(s, a, b) == s
  {
  }

  lemma RStripKeeps(s: string, p: char -> bool)
    requires |s| > 0 ==> !p(s[|s| - 1])
    ensures RStripWhile(s, p) == s
  {
    assert TrailingCount(s, p) == 0;
  }

  /** Python's `a <= b` on strings: lexicographic by code point. */
  predicate StrLe(a: string, b: string)
  {
    |a| == 0 || (|b| > 0 && (a[0] < b[0] || (a[0] == b[0] && StrLe(a[1..], b[1..]))))
  }

  lemma {:induction false} StrLeTotal(a: string, b: string)
    ensures StrLe(a, b) || StrLe(b, a)
  {
    if |a| > 0 && |b| > 0 && a[0] == b[0] {
      StrLeTotal(a[1..], b[1..]);
    }
  }

  lemma {:induction false} StrLeTrans(a: string, b: string, c: string)
    requires StrLe(a, b) && StrLe(b, c)
    ensures StrLe(a, c)
  {
    if |a| > 0 && a[0] == b[0] && b[0] == c[0] {
      StrLeTrans(a[1..], b[1..], c[1..]);
    }
  }

  lemma {:induction false} StrLeAntisym(a: string, b: string)
    requires StrLe(a, b) && StrLe(b, a)
    ensures a == b
  {
    if |a| > 0 {
      StrLeAntisym(a[1..], b[1..]);
      assert a == [a[0]] + a[1..] && b == [b[0]] + b[1..];
    }
  }
}
