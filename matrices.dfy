/**
 Matrices of la.js: `_matrix`, `_identity`, the curried
 `Matrix(type)(dimensions)(values | IDENTITY)` factory and the fixed-size
 `Matrix2d`/`Matrix3d` factories with `_identity2d`/`_identity3d`.
 A matrix built on a plain Array is an array of rows; on a typed kind `_matrix`
 returns an empty ArrayBuffer instead.
 */
module Matrices {
  import opened Results
  import opened Kinds
  import opened Dimensions
  import opened Vectors

  /** A matrix: an array of rows, each a plain array of numbers. */
  type Matrix = seq<seq<int>>

  /** What a matrix constructor is called with: nothing (a zero matrix), rows, or
      the `IDENTITY` sentinel. */
  datatype MatrixArg = Zero | Values(rows: Matrix) | Identity

  /** What `_matrix` returns: an array of rows for a plain Array; for a typed kind an
      ArrayBuffer object, which has no `length` and no rows, though rows may later be
      attached to it as the properties 0, 1, …. */
  datatype MatrixObject = Rows(rows: Matrix) | Buffer(attached: Matrix)

  /** `values && values[x]`: row x of the caller's values, if there is one. */
  function RowOf(values: Option<Matrix>, x: nat): Option<seq<int>>
  {
    if values.Some? && x < |values.value| then Some(values.value[x]) else None
  }

  /** What `_matrix(type, d, values)` returns. On a plain Array: `d` rows (none when `d`
      is negative), row x being the caller's row x itself or, when there is none, `d`
      zeros. On a typed kind: `new ArrayBuffer(type.byteLength * d)`, and a typed-array
      constructor has no `byteLength`, so an empty buffer and the values ignored. */
  function NewMatrix(kind: ListedKind, d: int, values: Option<Matrix>): (m: MatrixObject)
    ensures kind != Array ==> m == Buffer([])
    ensures kind == Array ==> m.Rows? && |m.rows| == (if d > 0 then d else 0)
    ensures kind == Array ==> forall x :: 0 <= x < |m.rows| ==>
      m.rows[x] == if RowOf(values, x).Some? then RowOf(values, x).value else Zeros(d)
  {
    if kind != Array then Buffer([])
    else if d <= 0 then Rows([])
    else Rows(seq(d, x requires 0 <= x < d => NewVector(Array, d, RowOf(values, x)).elems))
  }

  /** `_matrix` as the library runs it: rows built one at a time with `_vector`. */
  method MakeMatrix(kind: ListedKind, d: int, values: Option<Matrix>) returns (m: MatrixObject)
    ensures m == NewMatrix(kind, d, values)
  {
    if kind != Array {
      return Buffer([]);
    }
    var rows: Matrix := [];
    var x := 0;
    while x < d
      invariant 0 <= x <= if d > 0 then d else 0
      invariant |rows| == x
      invariant forall i :: 0 <= i < x ==> rows[i] == NewMatrix(kind, d, values).rows[i]
    {
      var row := MakeVector(Array, d as nat, RowOf(values, x));
      rows := rows + [row.elems];
      x := x + 1;
    }
    assert rows == NewMatrix(kind, d, values).rows;
    m := Rows(rows);
  }

  /** The d×d identity matrix: entry (i, j) is 1 when i == j and 0 otherwise; no rows
      when `d` is not positive. */
  function IdentityMatrix(d: int): Matrix
  {
    if d <= 0 then []
    else seq(d, i requires 0 <= i < d => seq(d, j requires 0 <= j < d => if i == j then 1 else 0))
  }

  /** `_identity(type, d)`: a zero matrix with 1 written on each diagonal entry in turn.
      On a typed kind the buffer has no row 0, so the first write throws TypeError. */
  method MakeIdentity(kind: ListedKind, d: int) returns (r: Result<MatrixObject>)
    ensures kind == Array ==> r == Ok(Rows(IdentityMatrix(d)))
    ensures kind != Array ==> r == if d >= 1 then Err(TypeError) else Ok(Buffer([]))
  {
    var m := MakeMatrix(kind, d, None);
    if m.Buffer? {
      if d >= 1 {
        return Err(TypeError);
      }
      return Ok(m);
    }
    var rows := m.rows;
    var i := 0;
    while i < d
      invariant 0 <= i <= if d > 0 then d else 0
      invariant |rows| == if d > 0 then d else 0
      invariant forall a :: 0 <= a < |rows| ==> |rows[a]| == d
      invariant forall a, b :: 0 <= a < |rows| && 0 <= b < |rows[a]| ==>
        rows[a][b] == if a == b && a < i then 1 else 0
    {
      rows := rows[i := rows[i][i := 1]];
      i := i + 1;
    }
    forall a | 0 <= a < |rows| ensures rows[a] == IdentityMatrix(d)[a] {
      assert |rows[a]| == |IdentityMatrix(d)[a]|;
    }
    assert rows == IdentityMatrix(d);
    r := Ok(Rows(rows));
  }

  /** `Matrix(type)(d)` once the kind check has passed. */
  datatype MatrixConstructor = MatrixConstructor(kind: ListedKind, dimensions: int)

  /** The second stage of `Matrix`: RangeError for NaN, a non-integer, an integer
      outside the signed 32-bit range, and 0; negative dimensions pass. */
  function MatrixDimensions(f: Factory, d: Number): (r: Result<MatrixConstructor>)
    ensures r.Ok? <==>
      IsInteger(d) && -0x8000_0000 <= IntegerValue(d) < 0x8000_0000 && IntegerValue(d) != 0
    ensures r.Ok? ==> r.value == MatrixConstructor(f.kind, IntegerValue(d))
    ensures r.Err? ==> r.error == RangeError
  {
    if MatrixRejects(d) then Err(RangeError) else Ok(MatrixConstructor(f.kind, ToInt32(d)))
  }

  /** The last stage of `Matrix(type)(d)(values)`: the identity for the sentinel, else `_matrix`. */
  method BuildMatrix(c: MatrixConstructor, arg: MatrixArg) returns (r: Result<MatrixObject>)
    ensures arg.Identity? && c.kind == Array ==> r == Ok(Rows(IdentityMatrix(c.dimensions)))
    ensures arg.Identity? && c.kind != Array ==>
      r == if c.dimensions >= 1 then Err(TypeError) else Ok(Buffer([]))
    ensures arg.Zero? ==> r == Ok(NewMatrix(c.kind, c.dimensions, None))
    ensures arg.Values? ==> r == Ok(NewMatrix(c.kind, c.dimensions, Some(arg.rows)))
    ensures c.kind == Array && c.dimensions < 0 ==> r == Ok(Rows([]))
  {
    if arg.Identity? {
      r := MakeIdentity(c.kind, c.dimensions);
    } else {
      var m := MakeMatrix(c.kind, c.dimensions, if arg.Values? then Some(arg.rows) else None);
      r := Ok(m);
    }
  }

  /** Without values, a plain-Array matrix of positive dimension d is d×d zeros. */
  lemma ZeroMatrixIsSquare(d: int)
    requires d > 0
    ensures NewMatrix(Array, d, None) == Rows(seq(d, _ => Zeros(d)))
  {
    assert NewMatrix(Array, d, None).rows == seq(d, _ => Zeros(d));
  }

  /** `_identity2d(Array)`: `[[1, 0], [0, 1]]`. */
  function Identity2d(): (m: Matrix)
    ensures m == IdentityMatrix(2)
  {
    assert IdentityMatrix(2)[0] == [1, 0] && IdentityMatrix(2)[1] == [0, 1];
    [[1, 0], [0, 1]]
  }

  /** `_identity3d(Array)`: `[[1, 0, 0], [0, 1, 0], [0, 0, 1]]`. */
  function Identity3d(): (m: Matrix)
    ensures m == IdentityMatrix(3)
  {
    assert IdentityMatrix(3)[0] == [1, 0, 0] && IdentityMatrix(3)[1] == [0, 1, 0];
    assert IdentityMatrix(3)[2] == [0, 0, 1];
    [[1, 0, 0], [0, 1, 0], [0, 0, 1]]
  }

  /** `Matrix2d(Array)(values)`: the identity for the sentinel, the first two rows of
      the values, or the default `[[0, 0], [0, 0]]`. */
  function Matrix2d(f: Factory, arg: MatrixArg): (m: Matrix)
    requires f.kind == Array
    requires arg.Values? ==> |arg.rows| >= 2
    ensures |m| == 2
    ensures arg.Zero? ==> m == [Zeros(2), Zeros(2)]
    ensures arg.Identity? ==> m == IdentityMatrix(2)
    ensures arg.Values? ==> m == arg.rows[..2]
  {
    match arg
    case Zero => assert Zeros(2) == [0, 0]; [[0, 0], [0, 0]]
    case Identity => Identity2d()
    case Values(rows) => [rows[0], rows[1]]
  }

  /** `Matrix2d` builds what the general `Matrix(Array)(2)` does, for every argument. */
  lemma Matrix2dAgrees(f: Factory, arg: MatrixArg)
    requires f.kind == Array
    requires arg.Values? ==> |arg.rows| >= 2
    ensures arg.Identity? ==> Rows(Matrix2d(f, arg)) == Rows(IdentityMatrix(2))
    ensures arg.Zero? ==> Rows(Matrix2d(f, arg)) == NewMatrix(Array, 2, None)
    ensures arg.Values? ==> Rows(Matrix2d(f, arg)) == NewMatrix(Array, 2, Some(arg.rows))
  {
    var m := NewMatrix(Array, 2, if arg.Values? then Some(arg.rows) else None);
    var g := if arg.Identity? then IdentityMatrix(2) else m.rows;
    assert |g| == 2;
    assert IdentityMatrix(2)[0] == [1, 0] && IdentityMatrix(2)[1] == [0, 1];
    assert g[0] == Matrix2d(f, arg)[0] && g[1] == Matrix2d(f, arg)[1];
    assert g == Matrix2d(f, arg);
  }

  /** `Matrix3d(Array)(values)` as written: its default value `[[0, 0, 0], [0, 0, 0]]`
      has two rows, so the third row it reads is undefined (None). */
  function Matrix3dAsWritten(f: Factory, arg: MatrixArg): (m: seq<Option<seq<int>>>)
    requires f.kind == Array
    ensures |m| == 3
    ensures arg.Zero? ==> m == [Some(Zeros(3)), Some(Zeros(3)), None]
    ensures arg.Identity? ==> forall i :: 0 <= i < 3 ==> m[i] == Some(IdentityMatrix(3)[i])
    ensures arg.Values? ==> forall i :: 0 <= i < 3 ==>
      m[i] == if i < |arg.rows| then Some(arg.rows[i]) else None
  {
    match arg
    case Identity => [Some(Identity3d()[0]), Some(Identity3d()[1]), Some(Identity3d()[2])]
    case Zero =>
      var defaults := Some([[0, 0, 0], [0, 0, 0]]);
      assert Zeros(3) == [0, 0, 0];
      [RowOf(defaults, 0), RowOf(defaults, 1), RowOf(defaults, 2)]
    case Values(rows) => [RowOf(Some(rows), 0), RowOf(Some(rows), 1), RowOf(Some(rows), 2)]
  }

  /** `Matrix3d(Array)(values)` with the evidently intended default of three zero rows. */
  function Matrix3d(f: Factory, arg: MatrixArg): (m: Matrix)
    requires f.kind == Array
    requires arg.Values? ==> |arg.rows| >= 3
    ensures |m| == 3
    ensures arg.Zero? ==> m == [Zeros(3), Zeros(3), Zeros(3)]
    ensures arg.Identity? ==> m == IdentityMatrix(3)
    ensures arg.Values? ==> m == arg.rows[..3]
  {
    match arg
    case Zero => assert Zeros(3) == [0, 0, 0]; [[0, 0, 0], [0, 0, 0], [0, 0, 0]]
    case Identity => Identity3d()
    case Values(rows) => [rows[0], rows[1], rows[2]]
  }

  /** The default 3-D matrix as written lacks its third row, while the intended one
      (and `Matrix(Array)(3)()`) has a third row of zeros. */
  lemma Matrix3dDefaultLacksRow(f: Factory)
    requires f.kind == Array
    ensures Matrix3dAsWritten(f, Zero)[2] == None
    ensures Rows(Matrix3d(f, Zero)) == NewMatrix(Array, 3, None)
    ensures Matrix3d(f, Zero)[2] == [0, 0, 0]
  {
    var m := NewMatrix(Array, 3, None).rows;
    assert m[0] == Zeros(3) && m[1] == Zeros(3) && m[2] == Zeros(3);
    assert Zeros(3) == [0, 0, 0];
  }

  /** The intended `Matrix3d` builds what `Matrix(Array)(3)` does, for every argument, and
      agrees with the code as written wherever that reads three rows. */
  lemma Matrix3dAgrees(f: Factory, arg: MatrixArg)
    requires f.kind == Array
    requires arg.Values? ==> |arg.rows| >= 3
    ensures arg.Identity? ==> Rows(Matrix3d(f, arg)) == Rows(IdentityMatrix(3))
    ensures arg.Zero? ==> Rows(Matrix3d(f, arg)) == NewMatrix(Array, 3, None)
    ensures arg.Values? ==> Rows(Matrix3d(f, arg)) == NewMatrix(Array, 3, Some(arg.rows))
    ensures !arg.Zero? ==> forall i :: 0 <= i < 3 ==> Matrix3dAsWritten(f, arg)[i] == Some(Matrix3d(f, arg)[i])
  {
    var m := NewMatrix(Array, 3, if arg.Values? then Some(arg.rows) else None);
    var g := if arg.Identity? then IdentityMatrix(3) else m.rows;
    assert |g| == 3;
    assert IdentityMatrix(3)[0] == [1, 0, 0] && IdentityMatrix(3)[1] == [0, 1, 0];
    assert IdentityMatrix(3)[2] == [0, 0, 1];
    assert g[0] == Matrix3d(f, arg)[0] && g[1] == Matrix3d(f, arg)[1] && g[2] == Matrix3d(f, arg)[2];
    assert g == Matrix3d(f, arg);
  }
}
