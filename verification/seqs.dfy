/** Counting, filtering, summing and de-duplicating over sequences: the folds
    the program writes as `len(df.filter(...))`, `.sum()` and `.n_unique()`. */
module Seqs {

  /** Number of elements of `s` satisfying `p`. */
  function Count<T>(s: seq<T>, p: T -> bool): (n: nat)
    ensures n <= |s|
    ensures n == 0 <==> forall i :: 0 <= i < |s| ==> !p(s[i])
  {
    if |s| == 0 then 0 else (if p(s[0]) then 1 else 0) + Count(s[1..], p)
  }

  lemma {:induction false} CountConcat<T>(a: seq<T>, b: seq<T>, p: T -> bool)
    ensures Count(a + b, p) == Count(a, p) + Count(b, p)
  {
    if |a| == 0 {
      assert a + b == b;
    } else {
      assert (a + b)[1..] == a[1..] + b;
      CountConcat(a[1..], b, p);
    }
  }

  /** A predicate holding on the first `m` elements counts at least `m`;
      one failing from position `m` on counts at most `m`. */
  lemma {:induction false} CountPrefix<T>(s: seq<T>, p: T -> bool, m: nat)
    requires m <= |s|
    ensures (forall i :: 0 <= i < m ==> p(s[i])) ==> Count(s, p) >= m
    ensures (forall i :: m <= i < |s| ==> !p(s[i])) ==> Count(s, p) <= m
  {
    if m > 0 {
      assert forall i :: 0 <= i < m - 1 ==> s[1..][i] == s[i + 1];
      assert forall i :: m - 1 <= i < |s| - 1 ==> s[1..][i] == s[i + 1];
      CountPrefix(s[1..], p, m - 1);
    }
  }

  /** Counting does not depend on the order of the elements. */
  lemma {:induction false} CountPermutation<T>(s: seq<T>, t: seq<T>, p: T -> bool)
    requires multiset(s) == multiset(t)
    ensures Count(s, p) == Count(t, p)
    decreases |s|
  {
    if |s| == 0 {
      assert |t| == |multiset(t)| == 0;
    } else {
      assert s[0] in multiset(t);
      var j :| 0 <= j < |t| && t[j] == s[0];
      RemoveAt(s, t, j);
      CountPermutation(s[1..], t[..j] + t[j + 1..], p);
      CountWithout(t, j, p);
    }
  }

  /** Taking the head of `s` out of a permutation `t` of it leaves a
      permutation of the tail. */
  lemma RemoveAt<T>(s: seq<T>, t: seq<T>, j: nat)
    requires multiset(s) == multiset(t) && |s| > 0 && j < |t| && t[j] == s[0]
    ensures multiset(s[1..]) == multiset(t[..j] + t[j + 1..])
  {
    var x := s[0];
    assert t == t[..j] + [x] + t[j + 1..];
    assert s == [x] + s[1..];
    assert multiset(t) == multiset(t[..j] + [x]) + multiset(t[j + 1..]);
    assert multiset(t[..j] + [x]) == multiset(t[..j]) + multiset{x};
    assert multiset(t[..j] + t[j + 1..]) == multiset(t[..j]) + multiset(t[j + 1..]);
    assert multiset(s) == multiset([x]) + multiset(s[1..]);
    assert multiset([x]) == multiset{x};
    assert multiset(s[1..]) == multiset(s) - multiset{x};
    assert multiset(t[..j] + t[j + 1..]) == multiset(t) - multiset{x};
  }

  /** The count with element `j` left out, plus that element's share. */
  lemma {:induction false} CountWithout<T>(t: seq<T>, j: nat, p: T -> bool)
    requires j < |t|
    ensures Count(t, p) == Count(t[..j] + t[j + 1..], p) + (if p(t[j]) then 1 else 0)
    decreases j
  {
    var u := t[..j] + t[j + 1..];
    if j == 0 {
      assert u == t[1..];
    } else {
      var tail := t[1..];
      CountWithout(tail, j - 1, p);
      assert u == [t[0]] + (tail[..j - 1] + tail[j..]);
      assert u[1..] == tail[..j - 1] + tail[j..];
    }
  }

  /** An element satisfying `p` makes the count positive. */
  lemma {:induction false} CountPositive<T>(s: seq<T>, p: T -> bool, j: int)
    requires 0 <= j < |s| && p(s[j])
    ensures Count(s, p) > 0
  {
    if j > 0 {
      CountPositive(s[1..], p, j - 1);
    }
  }

  /** Counting a predicate that holds nowhere gives 0. */
  lemma {:induction false} CountNone<T>(s: seq<T>, p: T -> bool)
    requires forall i :: 0 <= i < |s| ==> !p(s[i])
    ensures Count(s, p) == 0
  {
    if |s| > 0 {
      CountNone(s[1..], p);
    }
  }

  /** Counting a predicate that holds everywhere gives the length. */
  lemma {:induction false} CountAll<T>(s: seq<T>, p: T -> bool)
    requires forall i :: 0 <= i < |s| ==> p(s[i])
    ensures Count(s, p) == |s|
  {
    if |s| > 0 {
      CountAll(s[1..], p);
    }
  }

  /** A weaker predicate counts at least as many elements. */
  lemma {:induction false} CountImplies<T>(s: seq<T>, p: T -> bool, q: T -> bool)
    requires forall i :: 0 <= i < |s| && p(s[i]) ==> q(s[i])
    ensures Count(s, p) <= Count(s, q)
  {
    if |s| > 0 {
      CountImplies(s[1..], p, q);
    }
  }

  /** Predicates that agree on every element count the same. */
  lemma {:induction false} CountSame<T>(s: seq<T>, p: T -> bool, q: T -> bool)
    requires forall i :: 0 <= i < |s| ==> p(s[i]) == q(s[i])
    ensures Count(s, p) == Count(s, q)
  {
    if |s| > 0 {
      CountSame(s[1..], p, q);
    }
  }

  /** Disjoint predicates count at most the length together. */
  lemma {:induction false} CountDisjoint<T>(s: seq<T>, p: T -> bool, q: T -> bool)
    requires forall i :: 0 <= i < |s| ==> !(p(s[i]) && q(s[i]))
    ensures Count(s, p) + Count(s, q) <= |s|
  {
    if |s| > 0 {
      CountDisjoint(s[1..], p, q);
    }
  }

  /** When no two positions both satisfy `p`, at most one element counts. */
  lemma {:induction false} CountAtMostOne<T>(s: seq<T>, p: T -> bool)
    requires forall i, j :: 0 <= i < j < |s| ==> !(p(s[i]) && p(s[j]))
    ensures Count(s, p) <= 1
  {
    if |s| > 0 {
      if p(s[0]) {
        assert forall j :: 0 <= j < |s[1..]| ==> !p(s[1..][j]) by {
          forall j | 0 <= j < |s[1..]|
            ensures !p(s[1..][j])
          {
            assert s[1..][j] == s[j + 1];
          }
        }
      } else {
        CountAtMostOne(s[1..], p);
      }
    }
  }

  /** Elements of `s` satisfying `p`, in order. */
  function Filter<T>(s: seq<T>, p: T -> bool): (r: seq<T>)
    ensures |r| == Count(s, p)
    ensures forall x :: x in r ==> x in s && p(x)
    ensures forall x :: x in s && p(x) ==> x in r
  {
    if |s| == 0 then []
    else if p(s[0]) then [s[0]] + Filter(s[1..], p)
    else Filter(s[1..], p)
  }

  /** `r` can be read off `s` left to right, skipping elements: an
      order-preserving selection. */
  predicate Subseq<T(==)>(r: seq<T>, s: seq<T>)
    decreases |s|
  {
    |r| == 0 || (|s| > 0 && if r[0] == s[0] then Subseq(r[1..], s[1..]) else Subseq(r, s[1..]))
  }

  /** Filtering selects in order. With the length and membership clauses
      of `Filter` this pins the result: the only order-preserving selection
      of `Count(s, p)` elements satisfying `p`. */
  lemma {:induction false} FilterSubseq<T>(s: seq<T>, p: T -> bool)
    ensures Subseq(Filter(s, p), s)
  {
    if |s| > 0 {
      FilterSubseq(s[1..], p);
      var r := Filter(s, p);
      if p(s[0]) {
        assert r[0] == s[0] && r[1..] == Filter(s[1..], p);
      } else if |r| > 0 {
        assert r[0] in r;
      }
    }
  }

  /** A selection from `t` is also one from `t` with an element in front. */
  lemma {:induction false} SubseqCons<T>(r: seq<T>, t: seq<T>, x: T)
    requires Subseq(r, t)
    ensures Subseq(r, [x] + t)
    decreases |t|, 1
  {
    var xt := [x] + t;
    assert xt[1..] == t;
    if |r| > 0 && r[0] == x {
      SubseqTail(r, t);
    }
  }

  /** Dropping the first selected element leaves a selection. */
  lemma {:induction false} SubseqTail<T>(r: seq<T>, t: seq<T>)
    requires Subseq(r, t) && |r| > 0
    ensures Subseq(r[1..], t)
    decreases |t|, 0
  {
    if r[0] == t[0] {
      SubseqCons(r[1..], t[1..], t[0]);
    } else {
      SubseqTail(r, t[1..]);
      SubseqCons(r[1..], t[1..], t[0]);
    }
    assert [t[0]] + t[1..] == t;
  }

  /** Filtering keeps a sequence free of repetitions. */
  lemma {:induction false} FilterNoDup<T>(s: seq<T>, p: T -> bool)
    requires NoDup(s)
    ensures NoDup(Filter(s, p))
  {
    if |s| > 0 {
      assert NoDup(s[1..]);
      FilterNoDup(s[1..], p);
      assert s[0] !in s[1..];
    }
  }

  /** A property every element of `s` has, every kept element has. */
  lemma {:induction false} FilterKeeps<T>(s: seq<T>, p: T -> bool, q: T -> bool)
    requires forall i :: 0 <= i < |s| ==> q(s[i])
    ensures forall i :: 0 <= i < |Filter(s, p)| ==> q(Filter(s, p)[i])
  {
    if |s| > 0 {
      FilterKeeps(s[1..], p, q);
    }
  }

  /** Filters whose tests agree on `s` keep the same elements. */
  lemma {:induction false} FilterSame<T>(s: seq<T>, p: T -> bool, q: T -> bool)
    requires forall i :: 0 <= i < |s| ==> p(s[i]) == q(s[i])
    ensures Filter(s, p) == Filter(s, q)
  {
    if |s| > 0 {
      FilterSame(s[1..], p, q);
    }
  }

  /** Filtering distributes over concatenation. */
  lemma {:induction false} FilterConcat<T>(a: seq<T>, b: seq<T>, p: T -> bool)
    ensures Filter(a + b, p) == Filter(a, p) + Filter(b, p)
  {
    if |a| == 0 {
      assert a + b == b;
    } else {
      var ab := a + b;
      assert ab[0] == a[0] && ab[1..] == a[1..] + b;
      FilterConcat(a[1..], b, p);
      if p(a[0]) {
        calc {
          Filter(ab, p);
          [a[0]] + Filter(a[1..] + b, p);
          [a[0]] + (Filter(a[1..], p) + Filter(b, p));
          ([a[0]] + Filter(a[1..], p)) + Filter(b, p);
        }
      }
    }
  }

  /** A filter every element passes keeps the whole sequence; one no element
      passes keeps nothing. */
  lemma {:induction false} FilterAllOrNone<T>(s: seq<T>, p: T -> bool)
    ensures (forall i :: 0 <= i < |s| ==> p(s[i])) ==> Filter(s, p) == s
    ensures (forall i :: 0 <= i < |s| ==> !p(s[i])) ==> Filter(s, p) == []
  {
    if |s| > 0 {
      FilterAllOrNone(s[1..], p);
      assert forall i :: 1 <= i < |s| ==> s[1..][i - 1] == s[i];
      assert [s[0]] + s[1..] == s;
    }
  }

  /** Sum of `f` over the elements of `s`. */
  function Sum<T>(s: seq<T>, f: T -> real): real
  {
    if |s| == 0 then 0.0 else f(s[0]) + Sum(s[1..], f)
  }

  lemma {:induction false} SumConcat<T>(a: seq<T>, b: seq<T>, f: T -> real)
    ensures Sum(a + b, f) == Sum(a, f) + Sum(b, f)
  {
    if |a| == 0 {
      assert a + b == b;
    } else {
      assert (a + b)[1..] == a[1..] + b;
      SumConcat(a[1..], b, f);
    }
  }

  lemma {:induction false} SumNonNegative<T>(s: seq<T>, f: T -> real)
    requires forall i :: 0 <= i < |s| ==> f(s[i]) >= 0.0
    ensures Sum(s, f) >= 0.0
  {
    if |s| > 0 {
      SumNonNegative(s[1..], f);
    }
  }

  /** `c` added `n` times; kept apart from `*` so that sums stay linear. */
  function Scale(c: real, n: nat): real
  {
    if n == 0 then 0.0 else c + Scale(c, n - 1)
  }

  lemma {:induction false} ScaleIsProduct(c: real, n: nat)
    ensures Scale(c, n) == c * n as real
  {
    if n > 0 {
      ScaleIsProduct(c, n - 1);
      assert c * n as real == c + c * (n - 1) as real;
    }
  }

  lemma {:induction false} ScaleAdd(c: real, a: nat, b: nat)
    ensures Scale(c, a) + Scale(c, b) == Scale(c, a + b)
  {
    if a > 0 {
      ScaleAdd(c, a - 1, b);
    }
  }

  /** Sum of a constant over `s` is the constant taken `|s|` times. */
  lemma {:induction false} SumConstant<T>(s: seq<T>, f: T -> real, c: real)
    requires forall i :: 0 <= i < |s| ==> f(s[i]) == c
    ensures Sum(s, f) == Scale(c, |s|)
  {
    if |s| > 0 {
      SumConstant(s[1..], f, c);
    }
  }

  /** Splitting a sum by a predicate: the part where `p` holds plus the rest. */
  lemma {:induction false} SumSplit<T>(s: seq<T>, f: T -> real, p: T -> bool)
    ensures Sum(s, f) == Sum(Filter(s, p), f) + Sum(Filter(s, x => !p(x)), f)
  {
    if |s| > 0 {
      SumSplit(s[1..], f, p);
    }
  }

  /** No element occurs twice. */
  predicate NoDup<T(==)>(s: seq<T>)
  {
    forall i, j :: 0 <= i < j < |s| ==> s[i] != s[j]
  }

  /** The distinct elements of `s` in order of first occurrence; its length is
      polars' `n_unique` (which counts null like any other value). */
  function Distinct<T(==)>(s: seq<T>): (r: seq<T>)
    ensures NoDup(r)
    ensures forall i :: 0 <= i < |r| ==> r[i] in s
    ensures forall i :: 0 <= i < |s| ==> s[i] in r
    ensures |r| <= |s|
  {
    if |s| == 0 then []
    else
      var r := Distinct(s[..|s| - 1]);
      assert forall i :: 0 <= i < |s| - 1 ==> s[i] == s[..|s| - 1][i];
      if s[|s| - 1] in r then r else r + [s[|s| - 1]]
  }

  /** Distinct elements of a sequence without repetitions are the sequence. */
  lemma {:induction false} DistinctOfNoDup<T>(s: seq<T>)
    requires NoDup(s)
    ensures Distinct(s) == s
  {
    if |s| > 0 {
      DistinctOfNoDup(s[..|s| - 1]);
      assert s[|s| - 1] !in s[..|s| - 1];
      assert s[..|s| - 1] + [s[|s| - 1]] == s;
    }
  }

  /** Number of occurrences of `x` in `s`. */
  function Occurrences<T(==)>(s: seq<T>, x: T): (n: nat)
    ensures n <= |s|
    ensures n > 0 <==> x in s
  {
    if |s| == 0 then 0
    else (if s[0] == x then 1 else 0) + Occurrences(s[1..], x)
  }

  /** A sequence of distinct elements has every element once. */
  lemma {:induction false} OccurrencesNoDup<T>(s: seq<T>, x: T)
    requires NoDup(s)
    requires x in s
    ensures Occurrences(s, x) == 1
  {
    if s[0] == x {
      assert x !in s[1..];
    } else {
      assert x in s[1..];
      OccurrencesNoDup(s[1..], x);
    }
  }

  /** Two equal elements at different positions occur at least twice. */
  lemma {:induction false} OccurrencesTwice<T>(s: seq<T>, i: nat, j: nat)
    requires i < j < |s| && s[i] == s[j]
    ensures Occurrences(s, s[i]) >= 2
  {
    if i == 0 {
      assert s[1..][j - 1] == s[j];
    } else {
      OccurrencesTwice(s[1..], i - 1, j - 1);
    }
  }

  /** An element occurring at most once is different from every later one. */
  lemma RareDistinct<T>(s: seq<T>, i: nat, j: nat)
    requires i < j < |s| && Occurrences(s, s[i]) < 2
    ensures s[i] != s[j]
  {
    if s[i] == s[j] {
      OccurrencesTwice(s, i, j);
    }
  }

  /** Two sequences without repetitions and without common elements
      concatenate to one without repetitions. */
  lemma NoDupAppend<T>(a: seq<T>, b: seq<T>)
    requires NoDup(a) && NoDup(b)
    requires forall x | x in a :: x !in b
    ensures NoDup(a + b)
  {
    forall i, j | 0 <= i < j < |a + b|
      ensures (a + b)[i] != (a + b)[j]
    {
      if j < |a| {
        assert (a + b)[i] == a[i] && (a + b)[j] == a[j];
      } else if i >= |a| {
        assert (a + b)[i] == b[i - |a|] && (a + b)[j] == b[j - |a|];
      } else {
        assert (a + b)[i] == a[i] && (a + b)[j] == b[j - |a|];
        assert a[i] in a;
      }
    }
  }

  /** A sequence without repetitions has as many distinct elements as positions. */
  lemma {:induction false} NoDupCard<T>(s: seq<T>)
    requires NoDup(s)
    ensures |set x | x in s| == |s|
  {
    if |s| > 0 {
      assert NoDup(s[1..]);
      NoDupCard(s[1..]);
      assert (set x | x in s) == {s[0]} + (set x | x in s[1..]);
      assert s[0] !in s[1..];
    }
  }

  /** `i * n`, written as repeated addition so that proofs about row-major
      positions need no reasoning about products. */
  function Offset(i: nat, n: nat): nat
  {
    if i == 0 then 0 else n + Offset(i - 1, n)
  }

  lemma {:induction false} OffsetIsProduct(i: nat, n: nat)
    ensures Offset(i, n) == i * n
  {
    if i > 0 {
      OffsetIsProduct(i - 1, n);
      assert i * n == n + (i - 1) * n;
    }
  }

  /** All the blocks, one after another (a nested loop's output). */
  function Concat<T>(bs: seq<seq<T>>): seq<T>
  {
    if |bs| == 0 then [] else bs[0] + Concat(bs[1..])
  }

  /** With every block of length `n`, the concatenation has `|bs| * n`
      elements and element `j` of block `i` sits at `i * n + j`. */
  lemma {:induction false} ConcatAt<T>(bs: seq<seq<T>>, n: nat, i: nat, j: nat)
    requires forall k :: 0 <= k < |bs| ==> |bs[k]| == n
    requires i < |bs| && j < n
    ensures |Concat(bs)| == Offset(|bs|, n)
    ensures Offset(i, n) + j < |Concat(bs)|
    ensures Concat(bs)[Offset(i, n) + j] == bs[i][j]
  {
    if i > 0 {
      ConcatAt(bs[1..], n, i - 1, j);
      assert bs[1..][i - 1] == bs[i];
    } else if |bs| > 1 {
      ConcatAt(bs[1..], n, 0, j);
    }
  }
}
