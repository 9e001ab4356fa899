/** The engine's accumulator type: `Weight(f32)` of filters/src/lib.rs, with its
    clamp-and-truncate conversion to a `u8` sample and its `+=`. Weights are
    exact reals here. */
module Weights {
  import opened Samples

  /** A weighted, not yet clamped, channel value. */
  datatype Weight = Weight(value: real)

  /** `Into<u8> for Weight`: `value.min(255.0).max(0.0) as u8`. Clamping before
      the cast changes nothing, because the cast saturates anyway. */
  function ToU8(w: Weight): (r: U8)
    ensures r == Saturate(w.value)
    ensures w.value <= 0.0 ==> r == 0
    ensures w.value >= 255.0 ==> r == 255
    ensures 0.0 <= w.value <= 255.0 ==> r as real <= w.value < r as real + 1.0
  {
    var upper := if w.value < 255.0 then w.value else 255.0;
    var clamped := if upper > 0.0 then upper else 0.0;
    Saturate(clamped)
  }

  /** `AddAssign for Weight`. */
  function Plus(a: Weight, b: Weight): (r: Weight)
    ensures r.value == a.value + b.value
  {
    Weight(a.value + b.value)
  }

  /** Every byte value survives the round trip through a weight. */
  lemma ToU8OfByte(v: U8)
    ensures ToU8(Weight(v as real)) == v
  {
  }

  /** Adding two whole-number weights gives the weight of their sum. */
  lemma PlusOfBytes(a: U8, b: U8)
    ensures Plus(Weight(a as real), Weight(b as real)).value == (a + b) as real
  {
  }
}
