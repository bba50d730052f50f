/** The rotation-aware "fits some active carrier" test and the largest inner
    dimension (src/core/dimension_checker.py). */
module DimensionChecker {
  import opened Types
  import Capacity

  /** Some of the six orientations puts the SKU inside the carrier. */
  predicate FitsSomeOrientation(c: CarrierConfig, d: Capacity.Dims)
  {
    exists o :: o in Capacity.Orientations && Capacity.FitsIn(c, d, o)
  }

  /** The inner loop over the orientations, returning on the first fit. */
  function ScanOrientations(c: CarrierConfig, d: Capacity.Dims, os: seq<Orientation>): (b: bool)
    ensures b <==> exists o :: o in os && Capacity.FitsIn(c, d, o)
  {
    if |os| == 0 then false
    else if Capacity.FitsIn(c, d, os[0]) then true
    else
      assert forall o :: o in os <==> o == os[0] || o in os[1..];
      ScanOrientations(c, d, os[1..])
  }

  /** The outer loop over the carriers, skipping inactive ones. */
  function ScanCarriers(d: Capacity.Dims, cs: seq<CarrierConfig>): (b: bool)
    ensures b <==> exists i :: 0 <= i < |cs| && cs[i].isActive && FitsSomeOrientation(cs[i], d)
  {
    if |cs| == 0 then false
    else if cs[0].isActive && ScanOrientations(cs[0], d, Capacity.Orientations) then true
    else
      var b := ScanCarriers(d, cs[1..]);
      assert b ==> exists i :: 0 <= i < |cs| && cs[i].isActive && FitsSomeOrientation(cs[i], d) by {
        if b {
          var i :| 0 <= i < |cs[1..]| && cs[1..][i].isActive && FitsSomeOrientation(cs[1..][i], d);
          assert cs[i + 1] == cs[1..][i];
        }
      }
      assert (exists i :: 0 <= i < |cs| && cs[i].isActive && FitsSomeOrientation(cs[i], d)) ==> b by {
        if exists i :: 0 <= i < |cs| && cs[i].isActive && FitsSomeOrientation(cs[i], d) {
          var i :| 0 <= i < |cs| && cs[i].isActive && FitsSomeOrientation(cs[i], d);
          assert i > 0;
          assert cs[1..][i - 1] == cs[i];
        }
      }
      b
  }

  /** `can_fit_any_carrier`: an empty carrier list constrains nothing;
      otherwise some active carrier must take the SKU in some orientation,
      touching walls allowed. */
  function CanFitAnyCarrier(d: Capacity.Dims, carriers: seq<CarrierConfig>): (b: bool)
    ensures |carriers| == 0 ==> b
    ensures |carriers| > 0 ==>
      (b <==> exists i :: 0 <= i < |carriers| && carriers[i].isActive && FitsSomeOrientation(carriers[i], d))
    ensures |carriers| > 0 && (forall i :: 0 <= i < |carriers| ==> !carriers[i].isActive) ==> !b
  {
    if |carriers| == 0 then true else ScanCarriers(d, carriers)
  }

  /** The check agrees with the capacity engine: a non-empty list admits the
      SKU exactly when some active carrier's fit check under ANY with weight 0
      is not NOT_FIT. */
  lemma AgreesWithCheckFit(d: Capacity.Dims, carriers: seq<CarrierConfig>, threshold: real)
    requires AllValid(carriers) && |carriers| > 0
    ensures CanFitAnyCarrier(d, carriers)
        <==> exists i :: 0 <= i < |carriers| && carriers[i].isActive
               && Capacity.CheckFit("", d, 0.0, carriers[i], Any, threshold).fitStatus != NotFit
  {
    forall i | 0 <= i < |carriers|
      ensures FitsSomeOrientation(carriers[i], d)
          <==> Capacity.CheckFit("", d, 0.0, carriers[i], Any, threshold).fitStatus != NotFit
    {
      var c := carriers[i];
      assert Capacity.AllowedOrientations(Any) == Capacity.Orientations;
      var r := Capacity.CheckFit("", d, 0.0, c, Any, threshold);
      if FitsSomeOrientation(c, d) {
        assert r.limitingFactor != Dimension;
        assert r.limitingFactor != Weight;
      }
    }
  }

  /** The SKU's dimensions laid out along orientation `p`. */
  function Permute(d: Capacity.Dims, p: Orientation): Capacity.Dims
  {
    Capacity.Dims(Capacity.DimOf(d, p.x), Capacity.DimOf(d, p.y), Capacity.DimOf(d, p.z))
  }

  /** The axis of `p` that carries SKU dimension `a`. */
  function Pos(p: Orientation, a: Axis): Axis
  {
    if p.x == a then L else if p.y == a then W else H
  }

  function Sel(p: Orientation, a: Axis): Axis
  {
    match a
    case L => p.x
    case W => p.y
    case H => p.z
  }

  lemma PermuteDimOf(d: Capacity.Dims, p: Orientation, a: Axis)
    ensures Capacity.DimOf(Permute(d, p), a) == Capacity.DimOf(d, Sel(p, a))
  {
  }

  /** A fit of the original dimensions is a fit of any permutation of them. */
  lemma FitsSomePermuted(c: CarrierConfig, d: Capacity.Dims, p: Orientation)
    requires p in Capacity.Orientations
    requires FitsSomeOrientation(c, d)
    ensures FitsSomeOrientation(c, Permute(d, p))
  {
    var o :| o in Capacity.Orientations && Capacity.FitsIn(c, d, o);
    var q := Relabel(p, o);
    PermuteDimOf(d, p, q.x);
    PermuteDimOf(d, p, q.y);
    PermuteDimOf(d, p, q.z);
    SelPos(p, o.x);
    SelPos(p, o.y);
    SelPos(p, o.z);
    assert Capacity.FitsIn(c, Permute(d, p), q);
  }

  /** Orientation `o` of the original dimensions, seen from the dimensions
      permuted by `p`. */
  function Relabel(p: Orientation, o: Orientation): (q: Orientation)
    requires p in Capacity.Orientations && o in Capacity.Orientations
    ensures q in Capacity.Orientations
  {
    Orientation(Pos(p, o.x), Pos(p, o.y), Pos(p, o.z))
  }

  lemma SelPos(p: Orientation, a: Axis)
    requires p in Capacity.Orientations
    ensures Sel(p, Pos(p, a)) == a
  {
  }

  /** Undoing a permutation. */
  function Inverse(p: Orientation): Orientation
  {
    Orientation(Pos(p, L), Pos(p, W), Pos(p, H))
  }

  lemma PermuteInverse(d: Capacity.Dims, p: Orientation)
    requires p in Capacity.Orientations
    ensures Inverse(p) in Capacity.Orientations
    ensures Permute(Permute(d, p), Inverse(p)) == d
  {
  }

  /** The answer does not depend on the order in which the three dimensions
      are given. */
  lemma CanFitPermutationInvariant(d: Capacity.Dims, carriers: seq<CarrierConfig>, p: Orientation)
    requires p in Capacity.Orientations
    ensures CanFitAnyCarrier(Permute(d, p), carriers) == CanFitAnyCarrier(d, carriers)
  {
    PermuteInverse(d, p);
    forall i | 0 <= i < |carriers|
      ensures FitsSomeOrientation(carriers[i], d) <==> FitsSomeOrientation(carriers[i], Permute(d, p))
    {
      if FitsSomeOrientation(carriers[i], d) {
        FitsSomePermuted(carriers[i], d, p);
      }
      if FitsSomeOrientation(carriers[i], Permute(d, p)) {
        FitsSomePermuted(carriers[i], Permute(d, p), Inverse(p));
      }
    }
  }

  function Max(a: real, b: real): real { if a >= b then a else b }

  /** `get_max_allowed_dimension`: the largest inner dimension over the active
      carriers, and 0 when there is none. */
  function MaxAllowedDimension(carriers: seq<CarrierConfig>): (m: real)
    ensures m >= 0.0
    ensures forall i :: 0 <= i < |carriers| && carriers[i].isActive ==>
      carriers[i].innerLength <= m && carriers[i].innerWidth <= m && carriers[i].innerHeight <= m
    ensures m == 0.0 || exists i :: 0 <= i < |carriers| && carriers[i].isActive &&
                                   (m == carriers[i].innerLength || m == carriers[i].innerWidth
                                    || m == carriers[i].innerHeight)
  {
    if |carriers| == 0 then 0.0
    else
      var n := |carriers| - 1;
      var prev := MaxAllowedDimension(carriers[..n]);
      assert forall i :: 0 <= i < n ==> carriers[..n][i] == carriers[i];
      var c := carriers[n];
      if c.isActive then Max(Max(Max(prev, c.innerLength), c.innerWidth), c.innerHeight) else prev
  }
}
