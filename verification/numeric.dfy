/**
 * The ECMAScript number conversions the converter relies on, stated over exact
 * reals and unbounded integers (section 7.1 and section 21.3.2 of ECMA-262).
 * NaN and the infinities have no counterpart among the reals and are not modelled.
 */
module Numeric {

  const TwoTo15: int := 0x8000
  const TwoTo16: int := 0x1_0000
  const TwoTo32: int := 0x1_0000_0000

  /** Truncation toward zero, the first step of every ToIntN conversion. */
  function Trunc(x: real): (t: int)
    ensures 0.0 <= x ==> 0 <= t && t as real <= x < t as real + 1.0
    ensures x < 0.0 ==> t <= 0 && t as real - 1.0 < x <= t as real
  {
    if x >= 0.0 then x.Floor else -((-x).Floor)
  }

  /** Truncation toward zero never reverses the order of two reals. */
  lemma TruncMonotone(x: real, y: real)
    requires x <= y
    ensures Trunc(x) <= Trunc(y)
  {
    if 0.0 <= x {
      assert x.Floor as real <= y;
    } else if y < 0.0 {
      assert (-y).Floor as real <= -x;
    }
  }

  /** ToInt16 (section 7.1.8 of ECMA-262): truncate, then wrap into [-2^15, 2^15). */
  function ToInt16(x: real): (r: int)
    ensures -TwoTo15 <= r < TwoTo15
    ensures (r - Trunc(x)) % TwoTo16 == 0
    ensures -TwoTo15 <= Trunc(x) < TwoTo15 ==> r == Trunc(x)
  {
    var bits := Trunc(x) % TwoTo16;
    if bits >= TwoTo15 then bits - TwoTo16 else bits
  }

  /** ToUint16 (section 7.1.9 of ECMA-262) of an integral Number: wrap into [0, 2^16). */
  function ToUint16(n: int): (r: int)
    ensures 0 <= r < TwoTo16
    ensures (r - n) % TwoTo16 == 0
    ensures 0 <= n < TwoTo16 ==> r == n
  {
    n % TwoTo16
  }

  /** ToUint32 (section 7.1.7 of ECMA-262) of an integral Number: wrap into [0, 2^32). */
  function ToUint32(n: int): (r: int)
    ensures 0 <= r < TwoTo32
    ensures (r - n) % TwoTo32 == 0
    ensures 0 <= n < TwoTo32 ==> r == n
  {
    n % TwoTo32
  }

  /** Math.round (section 21.3.2.28 of ECMA-262): the nearest integer, ties toward +infinity. */
  function MathRound(x: real): (r: int)
    ensures r as real - 0.5 <= x < r as real + 0.5
  {
    (x + 0.5).Floor
  }

  /** Math.round never reverses the order of two reals. */
  lemma MathRoundMonotone(x: real, y: real)
    requires x <= y
    ensures MathRound(x) <= MathRound(y)
  {
    assert (x + 0.5).Floor as real <= y + 0.5;
  }

  /** Dividing by a positive real keeps the order. */
  lemma DivMonotone(a: real, b: real, d: real)
    requires a <= b && 0.0 < d
    ensures a / d <= b / d
  {
    var gap := b / d - a / d;
    assert gap * d == b - a;
  }

  function Min(a: real, b: real): real
  {
    if a <= b then a else b
  }

  function Max(a: real, b: real): real
  {
    if a >= b then a else b
  }
}
