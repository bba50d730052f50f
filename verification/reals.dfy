/** Small facts about real arithmetic shared by the ratio computations. */
module Reals {
  lemma MulMonotone(a: real, b: real, s: real)
    requires a <= b && s > 0.0
    ensures a * s <= b * s
    ensures a < b ==> a * s < b * s
  {
  }

  /** The share `part / total` of a non-empty whole lies in [0, 1], and is
      1 or 0 exactly when the part is the whole or nothing. */
  lemma ShareBounds(part: nat, total: nat)
    requires part <= total && total > 0
    ensures var q := part as real / total as real;
      0.0 <= q <= 1.0 && (q == 1.0 <==> part == total) && (q == 0.0 <==> part == 0)
  {
    var a := part as real;
    var t := total as real;
    var q := a / t;
    assert q * t == a;
    if part == total {
      assert q == 1.0;
    } else {
      assert q < 1.0 by {
        if q >= 1.0 { MulMonotone(1.0, q, t); }
      }
    }
    if part == 0 {
      assert q == 0.0;
    } else {
      assert q > 0.0;
    }
  }
}
