/**
 The dimension test of the `Vector` and `Matrix` factories,
 `isNaN(d) || d !== (d | 0) || …`, over JavaScript Numbers.
 `d | 0` is the ECMAScript ToInt32 conversion: truncation toward zero,
 then reduction modulo 2^32 into the signed 32-bit range.
 */
module Dimensions {

  /** A Number passed as a dimension: NaN, an infinity, or a finite value. */
  datatype Number = NaN | Infinity(negative: bool) | Finite(value: real)

  /** Truncation toward zero. */
  function Truncate(r: real): (t: int)
    ensures r >= 0.0 ==> 0 <= t && t as real <= r < t as real + 1.0
    ensures r < 0.0 ==> t <= 0 && t as real - 1.0 < r <= t as real
  {
    if r >= 0.0 then r.Floor else -((-r).Floor)
  }

  /** `n | 0`: NaN and the infinities give 0, a finite value is truncated and
      reduced modulo 2^32 into [-2^31, 2^31). */
  function ToInt32(n: Number): (i: int)
    ensures -0x8000_0000 <= i < 0x8000_0000
  {
    match n
    case Finite(r) => (Truncate(r) + 0x8000_0000) % 0x1_0000_0000 - 0x8000_0000
    case _ => 0
  }

  /** `isNaN(n)` for a Number. */
  predicate IsNaN(n: Number)
  {
    n.NaN?
  }

  /** `n === i` for an integer `i`. */
  predicate StrictEquals(n: Number, i: int)
  {
    n.Finite? && n.value == i as real
  }

  /** `n <= 0`. */
  predicate AtMostZero(n: Number)
  {
    match n
    case NaN => false
    case Infinity(negative) => negative
    case Finite(r) => r <= 0.0
  }

  /** `n === 0` (which holds of -0 too). */
  predicate IsZero(n: Number)
  {
    n.Finite? && n.value == 0.0
  }

  /** A Number that is a mathematical integer. */
  predicate IsInteger(n: Number)
  {
    n.Finite? && n.value.Floor as real == n.value
  }

  /** The integer value of an integral Number. */
  function IntegerValue(n: Number): int
    requires IsInteger(n)
  {
    n.value.Floor
  }

  /** `n === (n | 0)` holds exactly of the integers in the signed 32-bit range. */
  lemma Int32Exact(n: Number)
    ensures StrictEquals(n, ToInt32(n)) <==>
      IsInteger(n) && -0x8000_0000 <= IntegerValue(n) < 0x8000_0000
    ensures StrictEquals(n, ToInt32(n)) ==> ToInt32(n) == IntegerValue(n)
  {
    if n.Finite? {
      var r := n.value;
      var t := Truncate(r);
      if r.Floor as real == r {
        assert t == r.Floor;
      }
    }
  }

  /** The test `Vector(type)(d)` throws RangeError on. It lets through exactly the
      integers 1 .. 2^31 - 1, so NaN, the infinities, fractions, 0, negatives and
      integers beyond the signed 32-bit range are all rejected. */
  function VectorRejects(n: Number): (r: bool)
    ensures !r <==> IsInteger(n) && 1 <= IntegerValue(n) < 0x8000_0000
    ensures !r ==> ToInt32(n) == IntegerValue(n)
  {
    Int32Exact(n);
    IsNaN(n) || !StrictEquals(n, ToInt32(n)) || AtMostZero(n)
  }

  /** The test `Matrix(type)(d)` throws RangeError on. It lets through exactly the
      non-zero integers in the signed 32-bit range, negative ones included. */
  function MatrixRejects(n: Number): (r: bool)
    ensures !r <==>
      IsInteger(n) && -0x8000_0000 <= IntegerValue(n) < 0x8000_0000 && IntegerValue(n) != 0
    ensures !r ==> ToInt32(n) == IntegerValue(n)
  {
    Int32Exact(n);
    IsNaN(n) || !StrictEquals(n, ToInt32(n)) || IsZero(n)
  }
}
