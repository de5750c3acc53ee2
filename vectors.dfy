/**
 Vectors of la.js: `_vector`, the curried `Vector(type)(dimensions)(values)`
 factory and the fixed-size `Vector2d`/`Vector3d` factories.
 A vector is its backing constructor (its kind) and its elements; a write into a
 typed kind goes through `Store`.
 */
module Vectors {
  import opened Results
  import opened Kinds
  import opened Dimensions

  /** A vector: the constructor it was built with and its elements. */
  datatype Vec = Vec(kind: ListedKind, elems: seq<int>)

  /** Every element is a value its kind can hold; true of every typed array. */
  predicate Valid(v: Vec)
  {
    forall i :: 0 <= i < |v.elems| ==> InRange(v.kind, v.elems[i])
  }

  /** `n` zeros. */
  function Zeros(n: nat): (z: seq<int>)
    ensures |z| == n && forall i :: 0 <= i < n ==> z[i] == 0
  {
    seq(n, _ => 0)
  }

  /** `values` copied into a fresh typed array of kind `k`. */
  function Stored(k: Kind, values: seq<int>): seq<int>
  {
    seq(|values|, i requires 0 <= i < |values| => Store(k, values[i]))
  }

  /** `_vector(type, dimensions, values)`: for a plain Array, the caller's `values`
      themselves, or `dimensions` zeros; for a typed kind, `new type(values || dimensions)`. */
  function NewVector(kind: ListedKind, d: nat, values: Option<seq<int>>): (v: Vec)
    ensures v.kind == kind && Valid(v)
    ensures |v.elems| == if values.Some? then |values.value| else d
  {
    if values.None? then Vec(kind, Zeros(d))
    else if kind == Array then Vec(kind, values.value)
    else Vec(kind, Stored(kind, values.value))
  }

  /** `_vector` as the library runs it: the plain-Array zero vector is filled one
      element at a time. */
  method MakeVector(kind: ListedKind, d: nat, values: Option<seq<int>>) returns (v: Vec)
    ensures v == NewVector(kind, d, values)
  {
    if kind == Array {
      if values.Some? {
        return Vec(kind, values.value);
      }
      var a: seq<int> := [];
      var x := 0;
      while x < d
        invariant 0 <= x <= d
        invariant a == Zeros(x)
      {
        a := a + [0];
        x := x + 1;
      }
      return Vec(kind, a);
    }
    v := Vec(kind, if values.Some? then Stored(kind, values.value) else Zeros(d));
  }

  /** Values that the kind can hold are kept exactly: building a vector from them
      and reading it back gives them again. */
  lemma {:induction false} NewVectorKeepsValues(kind: ListedKind, d: nat, values: seq<int>)
    requires forall i :: 0 <= i < |values| ==> InRange(kind, values[i])
    ensures NewVector(kind, d, Some(values)).elems == values
  {
    if kind != Array {
      var s := Stored(kind, values);
      forall i | 0 <= i < |values| ensures s[i] == values[i] {
        assert Store(kind, values[i]) == values[i];
      }
    }
  }

  /** `Vector(type)(d)` once the kind check has passed: the closure over kind and dimension. */
  datatype VectorConstructor = VectorConstructor(kind: ListedKind, dimensions: nat)

  /** The second stage of `Vector`: RangeError unless `d` is a whole Number in
      1 .. 2^31 - 1. */
  function VectorDimensions(f: Factory, d: Number): (r: Result<VectorConstructor>)
    ensures r.Ok? <==> IsInteger(d) && 1 <= IntegerValue(d) < 0x8000_0000
    ensures r.Ok? ==> r.value == VectorConstructor(f.kind, IntegerValue(d))
    ensures r.Err? ==> r.error == RangeError
  {
    if VectorRejects(d) then Err(RangeError) else Ok(VectorConstructor(f.kind, ToInt32(d)))
  }

  /** The whole curried call `Vector(kind)(d)(values)`: TypeError for an unlisted kind;
      otherwise RangeError unless `d` is an integer in 1 .. 2^31 - 1; otherwise a
      vector of that kind, `d` zeros without values, the caller's values themselves
      for a plain Array. */
  function VectorOf(kind: Kind, d: Number, values: Option<seq<int>>): (r: Result<Vec>)
    ensures kind == Unlisted ==> r == Err(TypeError)
    ensures kind != Unlisted && !(IsInteger(d) && 1 <= IntegerValue(d) < 0x8000_0000) ==>
      r == Err(RangeError)
    ensures kind != Unlisted && IsInteger(d) && 1 <= IntegerValue(d) < 0x8000_0000 ==>
      r.Ok? && r.value.kind == kind && Valid(r.value) &&
      (values.None? ==> r.value.elems == Zeros(IntegerValue(d))) &&
      (values.Some? && kind == Array ==> r.value.elems == values.value)
  {
    match MakeFactory(kind)
    case Err(e) => Err(e)
    case Ok(f) =>
      match VectorDimensions(f, d)
      case Err(e) => Err(e)
      case Ok(c) => Ok(NewVector(c.kind, c.dimensions, values))
  }

  /** `_vector2d(t, x, y)`: `[x, y]` built on `t`. */
  function Vector2(kind: ListedKind, x: int, y: int): (v: Vec)
    ensures v.kind == kind && |v.elems| == 2 && Valid(v)
    ensures v.elems == [Store(kind, x), Store(kind, y)]
  {
    Vec(kind, Stored(kind, [x, y]))
  }

  /** `_vector3d(t, x, y, z)`: `[x, y, z]` built on `t`. */
  function Vector3(kind: ListedKind, x: int, y: int, z: int): (v: Vec)
    ensures v.kind == kind && |v.elems| == 3 && Valid(v)
    ensures v.elems == [Store(kind, x), Store(kind, y), Store(kind, z)]
  {
    Vec(kind, Stored(kind, [x, y, z]))
  }

  /** `Vector2d(type)(values)` once the kind check has passed: the first two values,
      or two zeros. */
  function Vector2d(f: Factory, values: Option<seq<int>>): (v: Vec)
    requires values.Some? ==> |values.value| >= 2
    ensures v.kind == f.kind && |v.elems| == 2 && Valid(v)
    ensures values.None? ==> v.elems == [0, 0]
    ensures values.Some? ==> forall i :: 0 <= i < 2 ==> v.elems[i] == Store(f.kind, values.value[i])
    ensures values.Some? && f.kind == Array ==> v.elems == values.value[..2]
  {
    var vs := if values.Some? then values.value else [0, 0];
    Vector2(f.kind, vs[0], vs[1])
  }

  /** `Vector3d(type)(values)` once the kind check has passed: the first three values,
      or three zeros. */
  function Vector3d(f: Factory, values: Option<seq<int>>): (v: Vec)
    requires values.Some? ==> |values.value| >= 3
    ensures v.kind == f.kind && |v.elems| == 3 && Valid(v)
    ensures values.None? ==> v.elems == [0, 0, 0]
    ensures values.Some? ==> forall i :: 0 <= i < 3 ==> v.elems[i] == Store(f.kind, values.value[i])
    ensures values.Some? && f.kind == Array ==> v.elems == values.value[..3]
  {
    var vs := if values.Some? then values.value else [0, 0, 0];
    Vector3(f.kind, vs[0], vs[1], vs[2])
  }

  /** On two values (or none), the 2-D factory builds what the general one does with
      dimension 2. */
  lemma Vector2dAgrees(f: Factory, values: Option<seq<int>>)
    requires values.Some? ==> |values.value| == 2
    ensures Vector2d(f, values) == NewVector(f.kind, 2, values)
  {
    if values.Some? {
      assert values.value == [values.value[0], values.value[1]];
    }
    if values.None? || f.kind == Array {
      assert Stored(Array, Vector2d(f, values).elems) == Vector2d(f, values).elems;
    }
  }

  /** On three values (or none), the 3-D factory builds what the general one does with
      dimension 3. */
  lemma Vector3dAgrees(f: Factory, values: Option<seq<int>>)
    requires values.Some? ==> |values.value| == 3
    ensures Vector3d(f, values) == NewVector(f.kind, 3, values)
  {
    if values.Some? {
      assert values.value == [values.value[0], values.value[1], values.value[2]];
    }
  }
}
