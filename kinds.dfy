/**
 Element kinds of la.js: the closed list of backing constructors a vector or
 matrix may be built on, the check every factory makes against that list, and
 the conversion a typed array applies to each value written into it.
 */
module Kinds {
  import opened Results

  /** A constructor passed as a kind: one of the ten the library lists, or any other. */
  datatype Kind =
    | Array
    | Int8Array
    | Uint8Array
    | Uint8ClampedArray
    | Int16Array
    | Uint16Array
    | Int32Array
    | Uint32Array
    | Float32Array
    | Float64Array
    | Unlisted

  /** The kinds a vector can have: every vector is built on a listed constructor. */
  type ListedKind = k: Kind | k != Unlisted witness Array

  /** The list `TYPES`, in the library's order. */
  const Types: seq<Kind> := [
    Array, Int8Array, Uint8Array, Uint8ClampedArray, Int16Array,
    Uint16Array, Int32Array, Uint32Array, Float32Array, Float64Array
  ]

  /** `TYPES` lists each of the ten constructors exactly once and nothing else. */
  lemma TypesListed()
    ensures |Types| == 10
    ensures forall k :: k in Types <==> k != Unlisted
    ensures forall i, j :: 0 <= i < j < |Types| ==> Types[i] != Types[j]
  {
  }

  /** `list.indexOf(k)`: the first position holding `k`, or -1. */
  function IndexOf(list: seq<Kind>, k: Kind): (i: int)
    ensures -1 <= i < |list|
    ensures i == -1 <==> k !in list
    ensures 0 <= i ==> list[i] == k && k !in list[..i]
  {
    if |list| == 0 then -1
    else if list[0] == k then 0
    else
      var j := IndexOf(list[1..], k);
      if j == -1 then -1 else j + 1
  }

  /** `~i` on a 32-bit integer, which is `-i - 1`. */
  function BitNot(i: int): int
  {
    -i - 1
  }

  /** A closure over a kind that passed the check: what `Vector(type)`,
      `Matrix(type)` and the fixed-size factories return. */
  datatype Factory = Factory(kind: ListedKind)

  /** The first stage of every factory: `if (!~TYPES.indexOf(type)) throw new TypeError()`. */
  function MakeFactory(kind: Kind): (r: Result<Factory>)
    ensures r.Ok? <==> kind != Unlisted
    ensures r.Ok? ==> r.value.kind == kind
    ensures r.Err? ==> r.error == TypeError
  {
    if BitNot(IndexOf(Types, kind)) == 0 then Err(TypeError) else Ok(Factory(kind))
  }

  /** Whether `x` is a value an element of kind `k` can hold. */
  predicate InRange(k: Kind, x: int)
  {
    match k
    case Int8Array => -0x80 <= x < 0x80
    case Uint8Array => 0 <= x < 0x100
    case Uint8ClampedArray => 0 <= x < 0x100
    case Int16Array => -0x8000 <= x < 0x8000
    case Uint16Array => 0 <= x < 0x1_0000
    case Int32Array => -0x8000_0000 <= x < 0x8000_0000
    case Uint32Array => 0 <= x < 0x1_0000_0000
    case _ => true
  }

  /** Reduction modulo `size` into the signed range `[-size/2, size/2)`. */
  function WrapSigned(x: int, size: nat): int
    requires size > 0
  {
    (x + size / 2) % size - size / 2
  }

  /** The value an element of kind `k` holds after the integer `x` is written into it:
      the integer typed arrays reduce it modulo 2^8, 2^16 or 2^32, Uint8ClampedArray
      clamps it to [0, 255], a plain Array keeps it. */
  function Store(k: Kind, x: int): (r: int)
    ensures InRange(k, r)
    ensures r == x <==> InRange(k, x)
  {
    match k
    case Int8Array => WrapSigned(x, 0x100)
    case Uint8Array => x % 0x100
    case Uint8ClampedArray => if x < 0 then 0 else if x > 0xFF then 0xFF else x
    case Int16Array => WrapSigned(x, 0x1_0000)
    case Uint16Array => x % 0x1_0000
    case Int32Array => WrapSigned(x, 0x1_0000_0000)
    case Uint32Array => x % 0x1_0000_0000
    case _ => x
  }

  /** Accumulating into an element, as `v[x] += a` does, converts only once in effect:
      storing `s`, adding `a` and storing again gives what storing `s + a` gives.
      A clamped element needs both addends non-negative (clamping below is not undone). */
  lemma StoreAbsorbs(k: Kind, s: int, a: int)
    requires k == Uint8ClampedArray ==> s >= 0 && a >= 0
    ensures Store(k, Store(k, s) + a) == Store(k, s + a)
  {
    match k
    case Int8Array => ModAbsorbs8(s + 0x80, a);
    case Uint8Array => ModAbsorbs8(s, a);
    case Int16Array => ModAbsorbs16(s + 0x8000, a);
    case Uint16Array => ModAbsorbs16(s, a);
    case Int32Array => ModAbsorbs32(s + 0x8000_0000, a);
    case Uint32Array => ModAbsorbs32(s, a);
    case _ =>
  }

  /** Reduction modulo 2^8 absorbs an earlier reduction of the left operand. */
  lemma ModAbsorbs8(s: int, a: int)
    ensures (s % 0x100 + a) % 0x100 == (s + a) % 0x100
  {
    var q, r := s / 0x100, (s % 0x100 + a) / 0x100;
    assert s + a == (q + r) * 0x100 + (s % 0x100 + a) % 0x100;
  }

  /** Reduction modulo 2^16 absorbs an earlier reduction of the left operand. */
  lemma ModAbsorbs16(s: int, a: int)
    ensures (s % 0x1_0000 + a) % 0x1_0000 == (s + a) % 0x1_0000
  {
    var q, r := s / 0x1_0000, (s % 0x1_0000 + a) / 0x1_0000;
    assert s + a == (q + r) * 0x1_0000 + (s % 0x1_0000 + a) % 0x1_0000;
  }

  /** Reduction modulo 2^32 absorbs an earlier reduction of the left operand. */
  lemma ModAbsorbs32(s: int, a: int)
    ensures (s % 0x1_0000_0000 + a) % 0x1_0000_0000 == (s + a) % 0x1_0000_0000
  {
    var q, r := s / 0x1_0000_0000, (s % 0x1_0000_0000 + a) / 0x1_0000_0000;
    assert s + a == (q + r) * 0x1_0000_0000 + (s % 0x1_0000_0000 + a) % 0x1_0000_0000;
  }
}
