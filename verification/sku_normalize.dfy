/** SKU normalisation and collision detection (src/ingest/sku_normalize.py).
    Character classes and case mapping are ASCII (see `Ascii`). */
module SkuNormalize {
  import opened Wrappers
  import opened Ascii
  import Seqs
  import Sorting
  import Frame

  /** The normaliser's switches; `replaceChars` is the replacement map in
      its insertion order. */
  datatype Normalizer = Normalizer(
    uppercase: bool,
    stripWhitespace: bool,
    removeSpecialChars: bool,
    replaceChars: seq<(string, string)>)

  const DefaultNormalizer := Normalizer(true, true, false, [])

  /** `[a-zA-Z0-9\-_]`. */
  predicate SkuChar(c: char)
  {
    IsAlnum(c) || c == '-' || c == '_'
  }

  predicate NoSpace(s: string)
  {
    forall i :: 0 <= i < |s| ==> !IsSpace(s[i])
  }

  predicate NoLower(s: string)
  {
    forall i :: 0 <= i < |s| ==> !IsLower(s[i])
  }

  predicate OnlySkuChars(s: string)
  {
    forall i :: 0 <= i < |s| ==> SkuChar(s[i])
  }

  // ---------------------------------------------------------------------
  // The four steps
  // ---------------------------------------------------------------------

  /** `strip()` then `re.sub(r"\s+", "", ...)`. */
  function StripStep(on: bool, s: string): (r: string)
    ensures on ==> NoSpace(r)
    ensures !on ==> r == s
  {
    if on then RemoveSpaces(Strip(s)) else s
  }

  /** Each `replace(old, new)` in the map's order. */
  function ReplaceStep(pairs: seq<(string, string)>, s: string): (r: string)
    ensures pairs == [] ==> r == s
    ensures NoSpace(s) && (forall k :: 0 <= k < |pairs| ==> NoSpace(pairs[k].1)) ==> NoSpace(r)
  {
    if |pairs| == 0 then s
    else
      var t := Replace(s, pairs[0].0, pairs[0].1);
      ReplaceChars(s, pairs[0].0, pairs[0].1);
      assert NoSpace(s) && NoSpace(pairs[0].1) ==> NoSpace(t) by {
        if NoSpace(s) && NoSpace(pairs[0].1) {
          forall i | 0 <= i < |t|
            ensures !IsSpace(t[i])
          {
            assert t[i] in t;
          }
        }
      }
      ReplaceStep(pairs[1..], t)
  }

  function SpecialStep(on: bool, s: string): (r: string)
    ensures on ==> OnlySkuChars(r)
    ensures !on ==> r == s
    ensures NoSpace(s) ==> NoSpace(r)
  {
    if on then KeepWhere(s, SkuChar) else s
  }

  function UpperStep(on: bool, s: string): (r: string)
    ensures on ==> NoLower(r)
    ensures !on ==> r == s
    ensures OnlySkuChars(s) ==> OnlySkuChars(r)
    ensures NoSpace(s) ==> NoSpace(r)
  {
    if on then Upper(s) else s
  }

  /** `normalize_sku` on a string: strip, replace, remove specials,
      uppercase, in that order. */
  function NormalizeText(n: Normalizer, s: string): (r: string)
    ensures n.uppercase ==> NoLower(r)
    ensures n.removeSpecialChars ==> OnlySkuChars(r)
    ensures n.stripWhitespace && (forall k :: 0 <= k < |n.replaceChars| ==> NoSpace(n.replaceChars[k].1)) ==> NoSpace(r)
  {
    var stripped := StripStep(n.stripWhitespace, s);
    var replaced := ReplaceStep(n.replaceChars, stripped);
    var kept := SpecialStep(n.removeSpecialChars, replaced);
    UpperStep(n.uppercase, kept)
  }

  /** `normalize_sku`: a null SKU normalises to the empty string. */
  function NormalizeSku(n: Normalizer, sku: Option<string>): (r: string)
    ensures sku.None? ==> r == ""
    ensures sku.Some? ==> r == NormalizeText(n, sku.value)
  {
    match sku
    case None => ""
    case Some(s) => NormalizeText(n, s)
  }

  /** Already-normal SKUs are fixed points of the default normaliser. */
  lemma DefaultIdempotent(s: string)
    ensures NormalizeText(DefaultNormalizer, NormalizeText(DefaultNormalizer, s)) == NormalizeText(DefaultNormalizer, s)
  {
    var t := NormalizeText(DefaultNormalizer, s);
    assert RemoveSpaces(Strip(t)) == t by {
      assert Strip(t) == t;
      assert KeepWhere(t, c => !IsSpace(c)) == t;
    }
    assert Upper(t) == t by {
      forall i | 0 <= i < |t|
        ensures Upper(t)[i] == t[i]
      {
        assert !IsLower(t[i]);
      }
    }
  }

  // ---------------------------------------------------------------------
  // Collisions
  // ---------------------------------------------------------------------

  datatype CollisionType = CaseOnly | WhitespaceOnly | SpecialChars

  datatype Collision = Collision(normalizedSku: string, originalSkus: seq<string>, collisionType: CollisionType)

  datatype NormalizationResult = NormalizationResult(
    skus: seq<string>,
    collisions: seq<Collision>,
    totalOriginal: nat,
    totalNormalized: nat,
    totalCollisions: nat)

  predicate AllSame(xs: seq<string>)
  {
    forall i, j :: 0 <= i < |xs| && 0 <= j < |xs| ==> xs[i] == xs[j]
  }

  function Lowered(xs: seq<string>): (r: seq<string>)
    ensures |r| == |xs| && forall i :: 0 <= i < |xs| ==> r[i] == Lower(xs[i])
  {
    seq(|xs|, i requires 0 <= i < |xs| => Lower(xs[i]))
  }

  function Unspaced(xs: seq<string>): (r: seq<string>)
    ensures |r| == |xs| && forall i :: 0 <= i < |xs| ==> r[i] == RemoveSpaces(xs[i])
  {
    seq(|xs|, i requires 0 <= i < |xs| => RemoveSpaces(xs[i]))
  }

  /** `_determine_collision_type`: "case" when the originals agree after
      lowercasing, else "whitespace" when they agree without whitespace,
      else "special_chars". */
  function CollisionTypeOf(skus: seq<string>): (t: CollisionType)
    ensures t == CaseOnly <==> AllSame(Lowered(skus))
    ensures t == WhitespaceOnly <==> !AllSame(Lowered(skus)) && AllSame(Unspaced(skus))
  {
    if AllSame(Lowered(skus)) then CaseOnly
    else if AllSame(Unspaced(skus)) then WhitespaceOnly
    else SpecialChars
  }

  /** Row `i` has normalised SKU `k` and original text `t`. */
  predicate MapsTo(origs: seq<Option<string>>, norms: seq<string>, k: string, t: string)
    requires |origs| == |norms|
  {
    exists i :: 0 <= i < |norms| && norms[i] == k && Frame.SkuText(origs[i]) == t
  }

  lemma MapsToCons(origs: seq<Option<string>>, norms: seq<string>, k: string, t: string)
    requires |origs| == |norms| > 0
    ensures MapsTo(origs, norms, k, t) <==>
      (norms[0] == k && Frame.SkuText(origs[0]) == t) || MapsTo(origs[1..], norms[1..], k, t)
  {
    if MapsTo(origs, norms, k, t) {
      var i :| 0 <= i < |norms| && norms[i] == k && Frame.SkuText(origs[i]) == t;
      if i > 0 {
        assert norms[1..][i - 1] == k && Frame.SkuText(origs[1..][i - 1]) == t;
      }
    }
    if MapsTo(origs[1..], norms[1..], k, t) {
      var i :| 0 <= i < |norms[1..]| && norms[1..][i] == k && Frame.SkuText(origs[1..][i]) == t;
      assert norms[i + 1] == k && Frame.SkuText(origs[i + 1]) == t;
    }
  }

  /** `str(orig)` of every original whose normalised SKU is `k`, in order. */
  function TextsFor(origs: seq<Option<string>>, norms: seq<string>, k: string): (r: seq<string>)
    requires |origs| == |norms|
    ensures forall t :: t in r <==> MapsTo(origs, norms, k, t)
  {
    if |origs| == 0 then []
    else
      var rest := TextsFor(origs[1..], norms[1..], k);
      var r := (if norms[0] == k then [Frame.SkuText(origs[0])] else []) + rest;
      assert forall t :: t in r <==> MapsTo(origs, norms, k, t) by {
        forall t
          ensures t in r <==> MapsTo(origs, norms, k, t)
        {
          MapsToCons(origs, norms, k, t);
        }
      }
      r
  }

  /** The set `normalized_to_original[k]`, as a sequence without repetitions. */
  function OriginalsOf(origs: seq<Option<string>>, norms: seq<string>, k: string): (r: seq<string>)
    requires |origs| == |norms|
    ensures Seqs.NoDup(r)
    ensures forall t :: t in r <==> MapsTo(origs, norms, k, t)
  {
    var texts := TextsFor(origs, norms, k);
    var d := Seqs.Distinct(texts);
    assert forall t :: t in d <==> t in texts;
    d
  }

  /** `k` collides: more than one distinct original maps onto it. */
  predicate Collides(origs: seq<Option<string>>, norms: seq<string>, k: string)
    requires |origs| == |norms|
  {
    |OriginalsOf(origs, norms, k)| > 1
  }

  /** The entry reported for a colliding key: its originals sorted, and the
      kind of difference between them. */
  predicate Reports(origs: seq<Option<string>>, norms: seq<string>, c: Collision)
    requires |origs| == |norms|
  {
    var os := OriginalsOf(origs, norms, c.normalizedSku);
    |os| > 1 && Sorting.SortedStrings(c.originalSkus) &&
    multiset(c.originalSkus) == multiset(os) && c.collisionType == CollisionTypeOf(os)
  }

  /** The entry for a colliding key. */
  function CollisionFor(origs: seq<Option<string>>, norms: seq<string>, k: string): (c: Collision)
    requires |origs| == |norms| && Collides(origs, norms, k)
    ensures c.normalizedSku == k && Reports(origs, norms, c)
  {
    var os := OriginalsOf(origs, norms, k);
    Collision(k, Sorting.SortStrings(os), CollisionTypeOf(os))
  }

  /** The normalised SKUs in order of first appearance that collide. */
  function CollidingKeys(origs: seq<Option<string>>, norms: seq<string>): (ks: seq<string>)
    requires |origs| == |norms|
    ensures Seqs.NoDup(ks) && |ks| <= |norms|
    ensures forall k :: k in ks <==> k in norms && Collides(origs, norms, k)
  {
    var keys := Seqs.Distinct(norms);
    assert forall k :: k in keys <==> k in norms;
    Seqs.FilterNoDup(keys, k => Collides(origs, norms, k));
    Seqs.Filter(keys, k => Collides(origs, norms, k))
  }

  /** The entries for the colliding keys `ks`, in order. */
  function Entries(origs: seq<Option<string>>, norms: seq<string>, ks: seq<string>): (r: seq<Collision>)
    requires |origs| == |norms|
    requires forall k | k in ks :: Collides(origs, norms, k)
    ensures |r| == |ks|
    ensures forall i :: 0 <= i < |r| ==> r[i].normalizedSku == ks[i] && r[i] == CollisionFor(origs, norms, ks[i])
  {
    seq(|ks|, i requires 0 <= i < |ks| => assert ks[i] in ks; CollisionFor(origs, norms, ks[i]))
  }

  /** `_detect_collisions`: one entry per normalised SKU with more than one
      distinct original, in order of first appearance; what each entry
      holds is stated by `DetectedAreCollisions` and `CollisionsDetected`. */
  function DetectCollisions(origs: seq<Option<string>>, norms: seq<string>): (r: seq<Collision>)
    requires |origs| == |norms|
    ensures |r| <= |norms|
    ensures forall i, j :: 0 <= i < j < |r| ==> r[i].normalizedSku != r[j].normalizedSku
  {
    Entries(origs, norms, CollidingKeys(origs, norms))
  }

  /** Every reported entry is a colliding key with its sorted originals. */
  lemma DetectedAreCollisions(origs: seq<Option<string>>, norms: seq<string>, c: Collision)
    requires |origs| == |norms| && c in DetectCollisions(origs, norms)
    ensures c.normalizedSku in norms && Reports(origs, norms, c)
  {
    var ks := CollidingKeys(origs, norms);
    var r := Entries(origs, norms, ks);
    var n :| 0 <= n < |r| && r[n] == c;
    assert ks[n] in ks;
  }

  /** Every colliding key is reported. */
  lemma CollisionsDetected(origs: seq<Option<string>>, norms: seq<string>, k: string)
    requires |origs| == |norms| && k in norms && Collides(origs, norms, k)
    ensures exists c :: c in DetectCollisions(origs, norms) && c.normalizedSku == k
  {
    var ks := CollidingKeys(origs, norms);
    var r := Entries(origs, norms, ks);
    assert k in ks;
    var n :| 0 <= n < |ks| && ks[n] == k;
    assert r[n] in r && r[n].normalizedSku == k;
  }

  /** `n_unique()` of a column without nulls: the number of distinct values. */
  function DistinctSize(xs: seq<string>): nat
  {
    |set s | s in xs|
  }

  /** `normalize_dataframe`: one normalised SKU per row, the number of
      distinct normalised SKUs, and the collisions. */
  function NormalizeColumn(n: Normalizer, origs: seq<Option<string>>): (r: NormalizationResult)
    ensures |r.skus| == |origs| && r.totalOriginal == |origs|
    ensures forall i :: 0 <= i < |origs| ==> r.skus[i] == NormalizeSku(n, origs[i])
    ensures r.totalNormalized == DistinctSize(r.skus) && r.totalNormalized <= r.totalOriginal
    ensures r.collisions == DetectCollisions(origs, r.skus) && r.totalCollisions == |r.collisions|
  {
    var norms := seq(|origs|, i requires 0 <= i < |origs| => NormalizeSku(n, origs[i]));
    DistinctCount(norms);
    var collisions := DetectCollisions(origs, norms);
    NormalizationResult(norms, collisions, |origs|, DistinctSize(norms), |collisions|)
  }

  /** `len(set(xs))` never exceeds `len(xs)`. */
  lemma DistinctCount(xs: seq<string>)
    ensures DistinctSize(xs) <= |xs|
  {
    var d := Seqs.Distinct(xs);
    Seqs.NoDupCard(d);
    assert (set s | s in xs) == (set s | s in d);
  }

  /** A case collision's originals all agree once lowercased. */
  lemma CaseCollisionsDifferOnlyInCase(c: Collision, origs: seq<Option<string>>, norms: seq<string>)
    requires |origs| == |norms| && c in DetectCollisions(origs, norms) && c.collisionType == CaseOnly
    ensures forall a, b | a in c.originalSkus && b in c.originalSkus :: Lower(a) == Lower(b)
  {
    DetectedAreCollisions(origs, norms, c);
    var os := OriginalsOf(origs, norms, c.normalizedSku);
    SameLowered(c.originalSkus, os);
  }

  lemma SameLowered(xs: seq<string>, os: seq<string>)
    requires multiset(xs) == multiset(os) && AllSame(Lowered(os))
    ensures forall a, b | a in xs && b in xs :: Lower(a) == Lower(b)
  {
    forall a, b | a in xs && b in xs
      ensures Lower(a) == Lower(b)
    {
      assert a in multiset(os) && b in multiset(os);
      var i :| 0 <= i < |os| && os[i] == a;
      var j :| 0 <= j < |os| && os[j] == b;
      assert Lowered(os)[i] == Lower(a) && Lowered(os)[j] == Lower(b);
    }
  }

  /** Two rows whose normalised SKUs agree but whose originals differ are
      reported as a collision under that key. */
  lemma DifferentOriginalsCollide(origs: seq<Option<string>>, norms: seq<string>, i: int, j: int)
    requires |origs| == |norms| && 0 <= i < |norms| && 0 <= j < |norms|
    requires norms[i] == norms[j] && Frame.SkuText(origs[i]) != Frame.SkuText(origs[j])
    ensures exists c :: c in DetectCollisions(origs, norms) && c.normalizedSku == norms[i]
  {
    var k := norms[i];
    var os := OriginalsOf(origs, norms, k);
    assert MapsTo(origs, norms, k, Frame.SkuText(origs[i]));
    assert MapsTo(origs, norms, k, Frame.SkuText(origs[j]));
    var a := Frame.SkuText(origs[i]);
    var b := Frame.SkuText(origs[j]);
    assert a in os && b in os;
    TwoDistinctMembers(os, a, b);
    CollisionsDetected(origs, norms, k);
  }

  lemma TwoDistinctMembers(s: seq<string>, a: string, b: string)
    requires a in s && b in s && a != b
    ensures |s| > 1
  {
  }
}
