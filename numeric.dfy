/** Integer helpers shared by the group count, the roulette, the timer and the
    sound settings. */
module Numeric {

  /** `Math.max(lo, Math.min(hi, x))`: `x` when it lies in `[lo, hi]`, else the
      nearer bound. */
  function Clamp(lo: int, hi: int, x: int): (r: int)
    requires lo <= hi
    ensures lo <= r <= hi
    ensures lo <= x <= hi ==> r == x
    ensures x < lo ==> r == lo
    ensures hi < x ==> r == hi
  {
    if x < lo then lo else if hi < x then hi else x
  }

  // ---------------------------------------------------------------------------
  // division facts
  // ---------------------------------------------------------------------------

  /** Quotient and remainder are determined by `x == q * g + r` with `0 <= r < g`. */
  lemma DivModUnique(x: int, g: int, q: int, r: int)
    requires g > 0 && 0 <= r < g && x == q * g + r
    ensures x / g == q && x % g == r
  {
    var q0, r0 := x / g, x % g;
    assert x == q0 * g + r0;
    if q0 > q {
      MulAtLeast(q0 - q, g);
    } else if q0 < q {
      MulAtLeast(q - q0, g);
    }
  }

  lemma MulAtLeast(a: int, g: int)
    requires a >= 1 && g > 0
    ensures a * g >= g
  {
    assert a * g == (a - 1) * g + g;
    assert (a - 1) * g >= 0;
  }

  lemma MulMonotone(a: int, b: int, c: int)
    requires a <= b && c >= 0
    ensures a * c <= b * c
  {
    assert b * c - a * c == (b - a) * c;
  }
}
