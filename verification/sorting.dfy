/** Python's `sorted(..., key=k, reverse=True)` (a stable sort by a numeric key,
    largest first) and `sorted(strings)` (ascending, code-point order). */
module Sorting {
  import Seqs
  import Ascii

  predicate SortedDesc<T>(s: seq<T>, key: T -> real)
  {
    forall i, j :: 0 <= i < j < |s| ==> key(s[i]) >= key(s[j])
  }

  /** The elements whose key is `k`, in order: stability says this
      subsequence is the same before and after sorting. */
  function WithKey<T>(s: seq<T>, key: T -> real, k: real): seq<T>
  {
    Seqs.Filter(s, KeyIs(key, k))
  }

  function KeyIs<T>(key: T -> real, k: real): T -> bool
  {
    y => key(y) == k
  }

  /** Inserts `x` before the first element whose key is at most `key(x)`. */
  function InsertDesc<T>(x: T, s: seq<T>, key: T -> real): (r: seq<T>)
    requires SortedDesc(s, key)
    ensures SortedDesc(r, key)
    ensures multiset(r) == multiset(s) + multiset{x}
  {
    if |s| == 0 || key(x) >= key(s[0]) then
      ConsSorted(x, s, key);
      [x] + s
    else
      var rest := InsertDesc(x, s[1..], key);
      assert multiset(s) == multiset{s[0]} + multiset(s[1..]) by {
        assert s == [s[0]] + s[1..];
      }
      HeadBounds(s, rest, x, key);
      ConsSorted(s[0], rest, key);
      [s[0]] + rest
  }

  lemma ConsSorted<T>(h: T, s: seq<T>, key: T -> real)
    requires SortedDesc(s, key)
    requires forall i :: 0 <= i < |s| ==> key(h) >= key(s[i])
    ensures SortedDesc([h] + s, key)
  {
    var r := [h] + s;
    forall i, j | 0 <= i < j < |r|
      ensures key(r[i]) >= key(r[j])
    {
      assert r[j] == s[j - 1];
      if i > 0 {
        assert r[i] == s[i - 1];
      }
    }
  }

  /** The head of a sorted sequence bounds every element of the rest with
      a smaller element inserted. */
  lemma HeadBounds<T>(s: seq<T>, rest: seq<T>, x: T, key: T -> real)
    requires SortedDesc(s, key) && |s| > 0 && key(x) < key(s[0])
    requires multiset(rest) == multiset(s[1..]) + multiset{x}
    ensures forall i :: 0 <= i < |rest| ==> key(s[0]) >= key(rest[i])
  {
    forall i | 0 <= i < |rest|
      ensures key(s[0]) >= key(rest[i])
    {
      assert rest[i] in multiset(rest);
      if rest[i] != x {
        assert rest[i] in multiset(s[1..]);
        var j :| 0 <= j < |s[1..]| && s[1..][j] == rest[i];
        assert s[j + 1] == rest[i];
      }
    }
  }

  /** Stable sort, largest key first. */
  function SortDesc<T>(s: seq<T>, key: T -> real): (r: seq<T>)
    ensures SortedDesc(r, key)
    ensures multiset(r) == multiset(s)
    ensures |r| == |s|
  {
    if |s| == 0 then []
    else
      assert s == [s[0]] + s[1..];
      InsertDesc(s[0], SortDesc(s[1..], key), key)
  }

  lemma {:induction false} FilterCons<T>(x: T, s: seq<T>, p: T -> bool)
    ensures Seqs.Filter([x] + s, p) == if p(x) then [x] + Seqs.Filter(s, p) else Seqs.Filter(s, p)
  {
    assert ([x] + s)[0] == x;
    assert ([x] + s)[1..] == s;
  }

  lemma {:induction false} InsertWithKey<T>(x: T, s: seq<T>, key: T -> real, k: real)
    requires SortedDesc(s, key)
    ensures WithKey(InsertDesc(x, s, key), key, k)
         == if key(x) == k then [x] + WithKey(s, key, k) else WithKey(s, key, k)
  {
    if |s| == 0 || key(x) >= key(s[0]) {
      FilterCons(x, s, KeyIs(key, k));
    } else {
      InsertWithKey(x, s[1..], key, k);
      InsertBehindHead(x, s, key, k);
    }
  }

  /** The step of `InsertWithKey` past a head with a larger key. */
  lemma InsertBehindHead<T>(x: T, s: seq<T>, key: T -> real, k: real)
    requires SortedDesc(s, key) && |s| > 0 && key(x) < key(s[0])
    requires WithKey(InsertDesc(x, s[1..], key), key, k)
         == if key(x) == k then [x] + WithKey(s[1..], key, k) else WithKey(s[1..], key, k)
    ensures WithKey(InsertDesc(x, s, key), key, k)
         == if key(x) == k then [x] + WithKey(s, key, k) else WithKey(s, key, k)
  {
    var p := KeyIs(key, k);
    var rest := InsertDesc(x, s[1..], key);
    assert InsertDesc(x, s, key) == [s[0]] + rest;
    FilterCons(s[0], rest, p);
    FilterCons(s[0], s[1..], p);
    assert [s[0]] + s[1..] == s;
  }

  /** The sort is stable: elements with equal keys keep their relative order. */
  lemma {:induction false} SortDescStable<T>(s: seq<T>, key: T -> real, k: real)
    ensures WithKey(SortDesc(s, key), key, k) == WithKey(s, key, k)
  {
    if |s| > 0 {
      SortDescStable(s[1..], key, k);
      InsertWithKey(s[0], SortDesc(s[1..], key), key, k);
      FilterCons(s[0], s[1..], KeyIs(key, k));
      assert [s[0]] + s[1..] == s;
    }
  }

  predicate SortedStrings(s: seq<string>)
  {
    forall i, j :: 0 <= i < j < |s| ==> Ascii.StrLe(s[i], s[j])
  }

  function InsertString(x: string, s: seq<string>): (r: seq<string>)
    requires SortedStrings(s)
    ensures SortedStrings(r)
    ensures multiset(r) == multiset(s) + multiset{x}
  {
    if |s| == 0 then [x]
    else if Ascii.StrLe(x, s[0]) then
      StringBelowHead(x, s);
      StringConsSorted(x, s);
      [x] + s
    else
      Ascii.StrLeTotal(x, s[0]);
      var rest := InsertString(x, s[1..]);
      assert multiset(s) == multiset{s[0]} + multiset(s[1..]) by {
        assert s == [s[0]] + s[1..];
      }
      StringHeadBounds(s, rest, x);
      StringConsSorted(s[0], rest);
      [s[0]] + rest
  }

  /** A string at most the head of a sorted sequence is at most all of it. */
  lemma StringBelowHead(x: string, s: seq<string>)
    requires SortedStrings(s) && |s| > 0 && Ascii.StrLe(x, s[0])
    ensures forall j :: 0 <= j < |s| ==> Ascii.StrLe(x, s[j])
  {
    forall j | 0 <= j < |s|
      ensures Ascii.StrLe(x, s[j])
    {
      if j > 0 { Ascii.StrLeTrans(x, s[0], s[j]); }
    }
  }

  lemma StringConsSorted(h: string, s: seq<string>)
    requires SortedStrings(s)
    requires forall i :: 0 <= i < |s| ==> Ascii.StrLe(h, s[i])
    ensures SortedStrings([h] + s)
  {
    var r := [h] + s;
    forall i, j | 0 <= i < j < |r|
      ensures Ascii.StrLe(r[i], r[j])
    {
      assert r[j] == s[j - 1];
      if i > 0 {
        assert r[i] == s[i - 1];
      }
    }
  }

  /** The head of a sorted sequence is at most every element of the rest
      with a larger string inserted. */
  lemma StringHeadBounds(s: seq<string>, rest: seq<string>, x: string)
    requires SortedStrings(s) && |s| > 0 && Ascii.StrLe(s[0], x)
    requires multiset(rest) == multiset(s[1..]) + multiset{x}
    ensures forall i :: 0 <= i < |rest| ==> Ascii.StrLe(s[0], rest[i])
  {
    forall i | 0 <= i < |rest|
      ensures Ascii.StrLe(s[0], rest[i])
    {
      assert rest[i] in multiset(rest);
      if rest[i] != x {
        assert rest[i] in multiset(s[1..]);
        var j :| 0 <= j < |s[1..]| && s[1..][j] == rest[i];
        assert s[j + 1] == rest[i];
      }
    }
  }

  /** Python `sorted(strings)`. */
  function SortStrings(s: seq<string>): (r: seq<string>)
    ensures SortedStrings(r)
    ensures multiset(r) == multiset(s)
  {
    if |s| == 0 then []
    else
      assert s == [s[0]] + s[1..];
      InsertString(s[0], SortStrings(s[1..]))
  }
}
