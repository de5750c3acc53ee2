/**
 Vector arithmetic of la.js: `scale`, the variadic `add`, and the fixed-size
 `scale2d`, `scale3d`, `add2d`, `add3d`. Each general operation fills a fresh vector of its
 first operand's kind in a loop; the functions `Scaled` and `Added` say what that
 vector is, and the methods are proved to build it.
 */
module Arithmetic {
  import opened Results
  import opened Kinds
  import opened Vectors

  /** What `scale(v, s)` returns: element i is `v[i] * s`, as v's kind stores it. */
  function Scaled(v: Vec, s: int): (r: Vec)
    ensures r.kind == v.kind && |r.elems| == |v.elems| && Valid(r)
  {
    Vec(v.kind, seq(|v.elems|, i requires 0 <= i < |v.elems| => Store(v.kind, v.elems[i] * s)))
  }

  /** `scale(vector, scalar)`: a zero vector of the same kind and length, then each
      element overwritten with the product. */
  method Scale(v: Vec, s: int) returns (r: Vec)
    ensures r == Scaled(v, s)
    ensures r.kind == v.kind && |r.elems| == |v.elems| && Valid(r)
  {
    r := MakeVector(v.kind, |v.elems|, None);
    var x := 0;
    while x < |v.elems|
      invariant 0 <= x <= |v.elems|
      invariant r.kind == v.kind && |r.elems| == |v.elems|
      invariant forall i :: 0 <= i < x ==> r.elems[i] == Store(v.kind, v.elems[i] * s)
    {
      r := r.(elems := r.elems[x := Store(r.kind, v.elems[x] * s)]);
      x := x + 1;
    }
  }

  /** Scaling by 1 gives the vector back, when its elements are values its kind holds. */
  lemma ScaleByOne(v: Vec)
    requires Valid(v)
    ensures Scaled(v, 1) == v
  {
    var r := Scaled(v, 1);
    forall i | 0 <= i < |v.elems| ensures r.elems[i] == v.elems[i] {
      assert InRange(v.kind, v.elems[i]);
    }
  }

  /** Every argument has an element at index `x`. */
  predicate HasIndex(args: seq<Vec>, x: nat)
  {
    forall y :: 0 <= y < |args| ==> x < |args[y].elems|
  }

  /** Every argument is at least as long as the first, so `add` never reads past one. */
  predicate Covers(args: seq<Vec>)
  {
    forall y :: 0 < y < |args| ==> |args[0].elems| <= |args[y].elems|
  }

  /** Element `x` of a vector of kind `k` after `v[x] += args[y][x]` for every argument in turn,
      starting from 0. */
  function Accumulated(k: Kind, args: seq<Vec>, x: nat): int
    requires HasIndex(args, x)
  {
    if |args| == 0 then 0
    else Store(k, Accumulated(k, args[..|args| - 1], x) + args[|args| - 1].elems[x])
  }

  /** What `add(args...)` returns: TypeError with no argument (it reads
      `arguments[0].constructor`); otherwise a vector of the first argument's kind
      and length whose element x accumulates element x of every argument. */
  function Added(args: seq<Vec>): (r: Result<Vec>)
    requires Covers(args)
    ensures r.Ok? <==> |args| > 0
    ensures r.Err? ==> r.error == TypeError
    ensures r.Ok? ==> r.value.kind == args[0].kind && |r.value.elems| == |args[0].elems| && Valid(r.value)
  {
    if |args| == 0 then Err(TypeError)
    else
      var n := |args[0].elems|;
      Ok(Vec(args[0].kind, seq(n, x requires 0 <= x < n => Accumulated(args[0].kind, args, x))))
  }

  /** `add(...vectors)`: a zero vector of the first argument's kind and length, then
      for each index, each argument's element added into it. */
  method Add(args: seq<Vec>) returns (r: Result<Vec>)
    requires Covers(args)
    ensures r == Added(args)
    ensures r.Ok? <==> |args| > 0
    ensures r.Ok? ==> r.value.kind == args[0].kind && |r.value.elems| == |args[0].elems| && Valid(r.value)
  {
    if |args| == 0 {
      return Err(TypeError);
    }
    var v := MakeVector(args[0].kind, |args[0].elems|, None);
    var x := 0;
    while x < |v.elems|
      invariant 0 <= x <= |v.elems| == |args[0].elems|
      invariant v.kind == args[0].kind
      invariant forall i :: 0 <= i < x ==> v.elems[i] == Accumulated(v.kind, args, i)
      invariant forall i :: x <= i < |v.elems| ==> v.elems[i] == 0
    {
      var y := 0;
      while y < |args|
        invariant 0 <= y <= |args|
        invariant |v.elems| == |args[0].elems| && v.kind == args[0].kind
        invariant forall i :: 0 <= i < x ==> v.elems[i] == Accumulated(v.kind, args, i)
        invariant v.elems[x] == Accumulated(v.kind, args[..y], x)
        invariant forall i :: x < i < |v.elems| ==> v.elems[i] == 0
      {
        assert args[..y + 1][..y] == args[..y];
        v := v.(elems := v.elems[x := Store(v.kind, v.elems[x] + args[y].elems[x])]);
        y := y + 1;
      }
      assert args[..|args|] == args;
      x := x + 1;
    }
    r := Ok(v);
    assert v.elems == Added(args).value.elems;
    forall i | 0 <= i < |v.elems| ensures InRange(v.kind, v.elems[i]) {
      AccumulatedInRange(v.kind, args, i);
    }
  }

  /** An accumulated element is a value its kind holds. */
  lemma AccumulatedInRange(k: Kind, args: seq<Vec>, x: nat)
    requires HasIndex(args, x)
    ensures InRange(k, Accumulated(k, args, x))
  {
  }

  /** The plain sum of element `x` over all arguments. */
  function ColumnSum(args: seq<Vec>, x: nat): int
    requires HasIndex(args, x)
  {
    if |args| == 0 then 0 else ColumnSum(args[..|args| - 1], x) + args[|args| - 1].elems[x]
  }

  /** A column of non-negative elements has a non-negative sum. */
  lemma {:induction false} ColumnSumNonNegative(args: seq<Vec>, x: nat)
    requires HasIndex(args, x)
    requires forall y :: 0 <= y < |args| ==> args[y].elems[x] >= 0
    ensures ColumnSum(args, x) >= 0
  {
    if |args| > 0 {
      ColumnSumNonNegative(args[..|args| - 1], x);
    }
  }

  /** Accumulating element by element stores the plain sum once: for a plain Array
      the element is the sum, for a wrapping kind the sum reduced, for a clamped kind
      (whose elements are never negative) the sum clamped. */
  lemma {:induction false} AccumulatedIsStoredSum(k: Kind, args: seq<Vec>, x: nat)
    requires HasIndex(args, x)
    requires k == Uint8ClampedArray ==> forall y :: 0 <= y < |args| ==> args[y].elems[x] >= 0
    ensures Accumulated(k, args, x) == Store(k, ColumnSum(args, x))
  {
    if |args| > 0 {
      var front := args[..|args| - 1];
      AccumulatedIsStoredSum(k, front, x);
      if k == Uint8ClampedArray {
        ColumnSumNonNegative(front, x);
      }
      StoreAbsorbs(k, ColumnSum(front, x), args[|args| - 1].elems[x]);
    }
  }

  /** Taking out argument `i` takes its element out of the column sum. */
  lemma {:induction false} ColumnSumRemove(args: seq<Vec>, i: nat, x: nat)
    requires i < |args| && HasIndex(args, x)
    ensures HasIndex(args[..i] + args[i + 1..], x)
    ensures ColumnSum(args, x) == ColumnSum(args[..i] + args[i + 1..], x) + args[i].elems[x]
  {
    var rest := args[..i] + args[i + 1..];
    var n := |args|;
    if i == n - 1 {
      assert rest == args[..n - 1];
    } else {
      var front := args[..n - 1];
      var last := args[n - 1];
      ColumnSumRemove(front, i, x);
      var shorter := front[..i] + front[i + 1..];
      assert rest == shorter + [last] by {
        assert front[..i] == args[..i];
        assert args[i + 1..] == front[i + 1..] + [last];
      }
      assert rest[..|rest| - 1] == shorter && rest[|rest| - 1] == last;
    }
  }

  /** Taking out element `i` of a sequence takes it out of its multiset. */
  lemma MultisetRemove(args: seq<Vec>, i: nat)
    requires i < |args|
    ensures multiset(args[..i] + args[i + 1..]) == multiset(args) - multiset{args[i]}
  {
    assert args == args[..i] + [args[i]] + args[i + 1..];
  }

  /** Every element of a permutation has an element at index `x` if the original's do. */
  lemma PermutationHasIndex(args: seq<Vec>, perm: seq<Vec>, x: nat)
    requires multiset(args) == multiset(perm)
    requires HasIndex(args, x)
    ensures HasIndex(perm, x)
  {
    forall y | 0 <= y < |perm| ensures x < |perm[y].elems| {
      assert perm[y] in multiset(perm);
      assert perm[y] in args;
    }
  }

  /** The last element of a permutation sits at some index of the original, and
      taking both out leaves permutations of each other. */
  lemma MatchLast(args: seq<Vec>, perm: seq<Vec>) returns (i: nat)
    requires multiset(args) == multiset(perm) && |perm| > 0
    ensures i < |args| && args[i] == perm[|perm| - 1]
    ensures multiset(args[..i] + args[i + 1..]) == multiset(perm[..|perm| - 1])
  {
    var n := |perm|;
    assert perm[n - 1] in multiset(perm);
    assert perm[n - 1] in args;
    i :| 0 <= i < |args| && args[i] == perm[n - 1];
    MultisetRemove(args, i);
    assert perm == perm[..n - 1] + [perm[n - 1]];
  }

  /** Column sums do not depend on the order of the arguments. */
  lemma {:induction false} ColumnSumPermutation(args: seq<Vec>, perm: seq<Vec>, x: nat)
    requires multiset(args) == multiset(perm)
    requires HasIndex(args, x)
    ensures HasIndex(perm, x)
    ensures ColumnSum(args, x) == ColumnSum(perm, x)
    decreases |perm|
  {
    PermutationHasIndex(args, perm, x);
    if |perm| > 0 {
      var n := |perm|;
      var front := perm[..n - 1];
      var i := MatchLast(args, perm);
      var rest := args[..i] + args[i + 1..];
      ColumnSumRemove(args, i, x);
      ColumnSumPermutation(rest, front, x);
      assert ColumnSum(perm, x) == ColumnSum(front, x) + perm[n - 1].elems[x];
    }
  }

  /** For well-formed vectors of one kind and one length, `add` does not depend on the
      order of its arguments. */
  lemma AddIgnoresOrder(args: seq<Vec>, perm: seq<Vec>)
    requires multiset(args) == multiset(perm) && |args| > 0
    requires forall y :: 0 <= y < |args| ==> Valid(args[y])
    requires forall y :: 0 <= y < |args| ==> args[y].kind == args[0].kind
    requires forall y :: 0 <= y < |args| ==> |args[y].elems| == |args[0].elems|
    ensures Covers(args) && Covers(perm)
    ensures Added(args) == Added(perm)
  {
    assert perm[0] in multiset(args);
    forall y | 0 <= y < |perm| ensures perm[y].kind == args[0].kind && |perm[y].elems| == |args[0].elems|
      && Valid(perm[y])
    {
      assert perm[y] in multiset(args);
    }
    var k, n := args[0].kind, |args[0].elems|;
    forall x | 0 <= x < n ensures Accumulated(k, args, x) == Accumulated(k, perm, x) {
      if k == Uint8ClampedArray {
        forall y | 0 <= y < |args| ensures args[y].elems[x] >= 0 {
          assert InRange(args[y].kind, args[y].elems[x]);
        }
        forall y | 0 <= y < |perm| ensures perm[y].elems[x] >= 0 {
          assert InRange(perm[y].kind, perm[y].elems[x]);
        }
      }
      AccumulatedIsStoredSum(k, args, x);
      AccumulatedIsStoredSum(k, perm, x);
      ColumnSumPermutation(args, perm, x);
    }
    assert Added(args).value.elems == Added(perm).value.elems;
  }

  /** `add(v1, v2)` equals `add(v2, v1)` for well-formed vectors of one kind and length. */
  lemma AddCommutes(v1: Vec, v2: Vec)
    requires Valid(v1) && Valid(v2)
    requires v1.kind == v2.kind && |v1.elems| == |v2.elems|
    ensures Covers([v1, v2]) && Covers([v2, v1])
    ensures Added([v1, v2]) == Added([v2, v1])
  {
    AddIgnoresOrder([v1, v2], [v2, v1]);
  }

  /** `scale2d(v, s)`: `[v[0] * s, v[1] * s]` on v's kind. */
  function Scale2d(v: Vec, s: int): (r: Vec)
    requires |v.elems| >= 2
    ensures r.kind == v.kind && |r.elems| == 2 && Valid(r)
    ensures forall i :: 0 <= i < 2 ==> r.elems[i] == Store(v.kind, v.elems[i] * s)
  {
    Vector2(v.kind, v.elems[0] * s, v.elems[1] * s)
  }

  /** `scale2d` agrees with `scale` on 2-vectors. */
  lemma Scale2dAgrees(v: Vec, s: int)
    requires |v.elems| == 2
    ensures Scale2d(v, s) == Scaled(v, s)
  {
  }

  /** `scale3d(v, s)` as written: it reads `v.contrustor`, a property no vector has,
      so `_vector3d` is handed `undefined` and `new undefined(...)` throws TypeError. */
  function Scale3dAsWritten(v: Vec, s: int): (r: Result<Vec>)
    ensures r.Err? && r.error == TypeError
  {
    Err(TypeError)
  }

  /** As written, `scale3d` never gives the scaled vector `scale` gives. */
  lemma Scale3dAsWrittenThrows(v: Vec, s: int)
    requires |v.elems| == 3
    ensures Scale3dAsWritten(v, s) != Ok(Scaled(v, s))
  {
  }

  /** `scale3d(v, s)` as intended: `[v[0] * s, v[1] * s, v[2] * s]` on v's kind. */
  function Scale3d(v: Vec, s: int): (r: Vec)
    requires |v.elems| >= 3
    ensures r.kind == v.kind && |r.elems| == 3 && Valid(r)
    ensures forall i :: 0 <= i < 3 ==> r.elems[i] == Store(v.kind, v.elems[i] * s)
  {
    Vector3(v.kind, v.elems[0] * s, v.elems[1] * s, v.elems[2] * s)
  }

  /** The intended `scale3d` agrees with `scale` on 3-vectors. */
  lemma Scale3dAgrees(v: Vec, s: int)
    requires |v.elems| == 3
    ensures Scale3d(v, s) == Scaled(v, s)
  {
  }

  /** `add2d(v0, v1)`: the element-wise sum on v0's kind. */
  function Add2d(v0: Vec, v1: Vec): (r: Vec)
    requires |v0.elems| >= 2 && |v1.elems| >= 2
    ensures r.kind == v0.kind && |r.elems| == 2 && Valid(r)
    ensures forall i :: 0 <= i < 2 ==> r.elems[i] == Store(v0.kind, v0.elems[i] + v1.elems[i])
  {
    Vector2(v0.kind, v0.elems[0] + v1.elems[0], v0.elems[1] + v1.elems[1])
  }

  /** `add3d(v0, v1, v2)`: the element-wise sum on v0's kind. */
  function Add3d(v0: Vec, v1: Vec, v2: Vec): (r: Vec)
    requires |v0.elems| >= 3 && |v1.elems| >= 3 && |v2.elems| >= 3
    ensures r.kind == v0.kind && |r.elems| == 3 && Valid(r)
    ensures forall i :: 0 <= i < 3 ==>
      r.elems[i] == Store(v0.kind, v0.elems[i] + v1.elems[i] + v2.elems[i])
  {
    Vector3(v0.kind,
      v0.elems[0] + v1.elems[0] + v2.elems[0],
      v0.elems[1] + v1.elems[1] + v2.elems[1],
      v0.elems[2] + v1.elems[2] + v2.elems[2])
  }

  /** No argument of a clamped sum holds a negative element. */
  predicate NoNegativeIntoClamped(args: seq<Vec>)
  {
    |args| > 0 && args[0].kind == Uint8ClampedArray ==>
      forall y, x :: 0 <= y < |args| && 0 <= x < |args[y].elems| ==> args[y].elems[x] >= 0
  }

  /** `add2d` agrees with `add` on a 2-vector whose elements its kind holds and a second
      vector of at least two elements. With two terms `add` stores the first unchanged
      and then the sum once, as `add2d` does, so even a clamped kind agrees. */
  lemma Add2dAgrees(v0: Vec, v1: Vec)
    requires |v0.elems| == 2 && |v1.elems| >= 2
    requires Valid(v0)
    ensures Covers([v0, v1])
    ensures Added([v0, v1]) == Ok(Add2d(v0, v1))
  {
    var args := [v0, v1];
    var k := v0.kind;
    assert args[..1] == [v0] && [v0][..0] == [];
    forall x | 0 <= x < 2
      ensures Accumulated(k, args, x) == Store(k, v0.elems[x] + v1.elems[x])
    {
      assert Accumulated(k, [v0], x) == Store(k, 0 + v0.elems[x]);
      assert InRange(k, v0.elems[x]);
    }
    assert Added(args).value.elems == Add2d(v0, v1).elems;
  }

  /** `add3d` agrees with `add` on a 3-vector and two further vectors of at least three elements. */
  lemma Add3dAgrees(v0: Vec, v1: Vec, v2: Vec)
    requires |v0.elems| == 3 && |v1.elems| >= 3 && |v2.elems| >= 3
    requires NoNegativeIntoClamped([v0, v1, v2])
    ensures Covers([v0, v1, v2])
    ensures Added([v0, v1, v2]) == Ok(Add3d(v0, v1, v2))
  {
    var args := [v0, v1, v2];
    var k := v0.kind;
    assert args[..2] == [v0, v1] && [v0, v1][..1] == [v0] && [v0][..0] == [];
    forall x | 0 <= x < 3
      ensures Accumulated(k, args, x) == Store(k, v0.elems[x] + v1.elems[x] + v2.elems[x])
    {
      AccumulatedIsStoredSum(k, args, x);
      assert ColumnSum(args, x) == ColumnSum([v0, v1], x) + v2.elems[x];
      assert ColumnSum([v0, v1], x) == ColumnSum([v0], x) + v1.elems[x];
      assert ColumnSum([v0], x) == ColumnSum([], x) + v0.elems[x];
    }
    assert Added(args).value.elems == Add3d(v0, v1, v2).elems;
  }
}
