/** 8-bit channel samples, the saturating float-to-u8 cast, coordinate
    clamping and the flat-index arithmetic shared by both engines. */
module Samples {

  /** One 8-bit channel sample (Rust `u8`). */
  type U8 = x: int | 0 <= x < 256

  /** Rust's `f as u8` for a float `f`: truncate toward zero, then saturate to
      [0, 255] (NaN, which exact reals do not have, also maps to 0). */
  function Saturate(v: real): (r: U8)
    ensures v <= 0.0 ==> r == 0
    ensures v >= 255.0 ==> r == 255
    ensures 0.0 <= v <= 255.0 ==> r as real <= v < r as real + 1.0
  {
    var truncated := if v >= 0.0 then v.Floor else -((-v).Floor);
    if truncated < 0 then 0 else if truncated > 255 then 255 else truncated
  }

  /** `v.min(n - 1).max(0)`: edge replication of a coordinate into [0, n - 1]. */
  function ClampCoord(v: int, n: int): (r: int)
    ensures n >= 1 ==> 0 <= r < n
    ensures n >= 1 && 0 <= v < n ==> r == v
    ensures n >= 1 && v < 0 ==> r == 0
    ensures n >= 1 && v >= n ==> r == n - 1
  {
    var upper := if v < n - 1 then v else n - 1;
    if upper > 0 then upper else 0
  }

  /** Multiplying both sides of `a <= b` by a positive factor. */
  lemma MulMonotone(a: int, b: int, d: int)
    requires a <= b && d > 0
    ensures a * d <= b * d
  {
    assert b * d - a * d == (b - a) * d;
  }

  /** Euclidean division is determined by quotient and remainder. */
  lemma DivModUnique(n: int, d: int, q: int, r: int)
    requires d > 0 && 0 <= r < d && n == q * d + r
    ensures n / d == q && n % d == r
  {
    var q0, r0 := n / d, n % d;
    assert n == q0 * d + r0;
    if q0 < q {
      MulMonotone(q0 + 1, q, d);
      assert false;
    } else if q < q0 {
      MulMonotone(q + 1, q0, d);
      assert false;
    }
  }

  /** One term of a weighted sum: a sample converted to a float and
      multiplied by its weight. */
  function Weighed(sample: U8, weight: real): real
  {
    sample as real * weight
  }

  /** One step of a sum whose terms are all scaled by the same factor. */
  lemma AddScaled(total: real, p: real, q: real, f: real, t: real, a: real, b: real)
    requires total == p + q && t == a + b && p == f * a && q == f * b
    ensures total == f * t
  {
  }
}
