/** The rewrite of European number strings before the float cast: with a
    comma the dots are thousands separators and the comma is the decimal
    point. The float cast itself is not part of this model. */
module Cleaning {
  import opened Wrappers
  import opened Ascii

  /** Every `c` removed (`replace_all(c, "")`). */
  function DropChar(s: string, c: char): (r: string)
    ensures c !in r
    ensures |r| == |s| - CountChar(s, c)
    ensures forall d :: d != c ==> CountChar(r, d) == CountChar(s, d)
    ensures forall d :: d in r ==> d in s
  {
    if |s| == 0 then ""
    else
      var rest := DropChar(s[1..], c);
      assert forall x :: x in s <==> x == s[0] || x in s[1..];
      if s[0] == c then rest
      else
        assert ([s[0]] + rest)[1..] == rest;
        [s[0]] + rest
  }

  lemma {:induction false} DropCharConcat(x: string, y: string, c: char)
    ensures DropChar(x + y, c) == DropChar(x, c) + DropChar(y, c)
    decreases |x|
  {
    if |x| > 0 {
      var xy := x + y;
      var h := if x[0] == c then "" else [x[0]];
      assert xy[0] == x[0] && xy[1..] == x[1..] + y;
      DropCharHead(xy, c);
      DropCharHead(x, c);
      DropCharConcat(x[1..], y, c);
      calc {
        DropChar(xy, c);
        h + DropChar(x[1..] + y, c);
        h + (DropChar(x[1..], c) + DropChar(y, c));
        (h + DropChar(x[1..], c)) + DropChar(y, c);
        DropChar(x, c) + DropChar(y, c);
      }
    } else {
      assert x + y == y;
    }
  }

  lemma DropCharHead(s: string, c: char)
    requires |s| > 0
    ensures DropChar(s, c) == (if s[0] == c then "" else [s[0]]) + DropChar(s[1..], c)
  {
  }

  lemma {:induction false} DropCharAbsent(x: string, c: char)
    requires c !in x
    ensures DropChar(x, c) == x
    decreases |x|
  {
    if |x| > 0 {
      assert forall d :: d in x[1..] ==> d in x;
      DropCharAbsent(x[1..], c);
      assert x == [x[0]] + x[1..];
    }
  }

  lemma CountCharPrefix(s: string, c: char, i: int)
    requires 0 < i <= |s|
    ensures CountChar(s[..i], c) == (if s[0] == c then 1 else 0) + CountChar(s[1..][..i - 1], c)
  {
    var p := s[..i];
    assert p[0] == s[0] && p[1..] == s[1..][..i - 1];
  }

  /** One kept character: it moves left by the number of `c`s before it. */
  lemma {:induction false} DropCharAt(s: string, c: char, i: int)
    requires 0 <= i < |s| && s[i] != c
    ensures 0 <= i - CountChar(s[..i], c) < |DropChar(s, c)| && DropChar(s, c)[i - CountChar(s[..i], c)] == s[i]
    decreases i
  {
    DropCharHead(s, c);
    if i == 0 {
      assert s[..0] == "";
    } else {
      DropCharAt(s[1..], c, i - 1);
      CountCharPrefix(s, c, i);
    }
  }

  /** Where each kept character lands: a character of `s` other than `c`
      moves left by the number of `c`s before it. Together with the length
      clause of `DropChar` this fixes the result character by character. */
  lemma DropCharPlaces(s: string, c: char)
    ensures forall i | 0 <= i < |s| && s[i] != c ::
      0 <= i - CountChar(s[..i], c) < |DropChar(s, c)| && DropChar(s, c)[i - CountChar(s[..i], c)] == s[i]
  {
    forall i | 0 <= i < |s| && s[i] != c
      ensures 0 <= i - CountChar(s[..i], c) < |DropChar(s, c)| && DropChar(s, c)[i - CountChar(s[..i], c)] == s[i]
    {
      DropCharAt(s, c, i);
    }
  }

  /** Swapping `a` for `b` moves every `a` into the count of `b`. */
  lemma {:induction false} MapCharCount(s: string, a: char, b: char)
    requires a != b
    ensures CountChar(MapChar(s, a, b), b) == CountChar(s, b) + CountChar(s, a)
    decreases |s|
  {
    if |s| > 0 {
      assert MapChar(s, a, b)[1..] == MapChar(s[1..], a, b);
      MapCharCount(s[1..], a, b);
    }
  }

  /** `r` is `t` with every dot removed and every comma written as a dot:
      each non-dot character of `t` appears, in order, shifted left by the
      dots before it, and nothing else does. */
  predicate EuropeanOf(t: string, r: string)
  {
    ',' !in r && CountChar(r, '.') == CountChar(t, ',') && |r| + CountChar(t, '.') == |t| &&
    forall i | 0 <= i < |t| && t[i] != '.' ::
      0 <= i - CountChar(t[..i], '.') < |r| && r[i - CountChar(t[..i], '.')] == (if t[i] == ',' then '.' else t[i])
  }

  /** The European path: dots removed, then commas turned into dots. */
  function European(t: string): (r: string)
    ensures EuropeanOf(t, r)
  {
    var u := DropChar(t, '.');
    MapCharCount(u, ',', '.');
    DropCharPlaces(t, '.');
    assert CountChar(u, '.') == 0;
    MapChar(u, ',', '.')
  }

  /** `clean_numeric_column` on one cell, up to the float cast: a null
      stays null; the text is stripped, and rewritten only when it holds a
      comma. */
  function CleanNumericText(v: Option<string>): (r: Option<string>)
    ensures r.None? <==> v.None?
    ensures v.Some? && ',' !in Strip(v.value) ==> r == Some(Strip(v.value))
    ensures v.Some? && ',' in Strip(v.value) ==> EuropeanOf(Strip(v.value), r.value)
  {
    match v
    case None => None
    case Some(s) =>
      var t := Strip(s);
      if ',' in t then Some(European(t)) else Some(t)
  }

  predicate Digits(s: string)
  {
    forall i :: 0 <= i < |s| ==> IsDigit(s[i])
  }

  lemma DropThousandsDot(a: string, b: string, c: string)
    requires Digits(a) && Digits(b) && Digits(c)
    ensures DropChar(a + "." + b + "," + c, '.') == a + b + "," + c
  {
    var x := a + ".";
    assert DropChar(x, '.') == a by {
      DropCharConcat(a, ".", '.');
      DropCharAbsent(a, '.');
      assert DropChar(".", '.') == "";
    }
    var y := x + b;
    assert DropChar(y, '.') == a + b by {
      DropCharConcat(x, b, '.');
      DropCharAbsent(b, '.');
    }
    var z := y + ",";
    assert DropChar(z, '.') == a + b + "," by {
      DropCharConcat(y, ",", '.');
      DropCharAbsent(",", '.');
    }
    assert DropChar(z + c, '.') == a + b + "," + c by {
      DropCharConcat(z, c, '.');
      DropCharAbsent(c, '.');
    }
  }

  lemma SwapDecimalComma(x: string, c: string)
    requires Digits(x) && Digits(c)
    ensures MapChar(x + "," + c, ',', '.') == x + "." + c
  {
    var u := x + "," + c;
    assert forall i :: 0 <= i < |u| ==> (u[i] == ',' <==> i == |x|);
  }

  /** `1.234,56` reads as `1234.56`: digits, a thousands dot, more digits,
      the decimal comma and the fraction. */
  lemma ThousandsAndDecimal(a: string, b: string, c: string)
    requires Digits(a) && Digits(b) && Digits(c) && |a| > 0 && |c| > 0
    ensures CleanNumericText(Some(a + "." + b + "," + c)) == Some(a + b + "." + c)
  {
    var s := a + "." + b + "," + c;
    assert Strip(s) == s by {
      assert s[0] == a[0] && s[|s| - 1] == c[|c| - 1];
      StripKeeps(s);
    }
    assert ',' in s by {
      assert s[|a| + 1 + |b|] == ',';
    }
    assert DropChar(s, '.') == a + b + "," + c by {
      DropThousandsDot(a, b, c);
    }
    assert MapChar(a + b + "," + c, ',', '.') == a + b + "." + c by {
      assert Digits(a + b);
      SwapDecimalComma(a + b, c);
    }
  }

  /** A plain decimal point is left alone. */
  lemma DotDecimalKept(a: string, c: string)
    requires Digits(a) && Digits(c) && |a| > 0 && |c| > 0
    ensures CleanNumericText(Some(a + "." + c)) == Some(a + "." + c)
  {
    var s := a + "." + c;
    StripKeeps(s);
    assert s[|s| - 1] == c[|c| - 1];
    assert forall i :: 0 <= i < |s| ==> s[i] != ',';
  }
}
