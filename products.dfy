/**
 Products of la.js: `transform` (a row vector times a matrix, computed as the sum
 of the matrix rows scaled by the vector's entries), `_multiply` and the variadic
 left fold `multiply`. Matrices here are plain arrays of plain-Array rows.
 */
module Products {
  import opened Results
  import opened Kinds
  import opened Vectors
  import opened Arithmetic
  import opened Matrices

  /** When `transform(v, m)` gets as far as `add` (no row is missing), the rows it
      scales are at least as long as row 0, so `add` never reads past the end of one. */
  predicate Fits(v: seq<int>, m: Matrix)
  {
    |v| <= |m| ==> forall x :: 0 < x < |v| ==> |m[0]| <= |m[x]|
  }

  /** The vectors `transform(v, m)` adds: row x of `m` scaled by `v[x]`. */
  function ScaledRows(v: seq<int>, m: Matrix): (s: seq<Vec>)
    requires |v| <= |m|
    ensures |s| == |v|
    ensures forall x :: 0 <= x < |v| ==> s[x].kind == Array && |s[x].elems| == |m[x]|
  {
    seq(|v|, x requires 0 <= x < |v| => Scaled(Vec(Array, m[x]), v[x]))
  }

  /** What `transform(v, m)` returns. It throws TypeError when a row is missing
      (`scale(undefined, …)`) or when `v` is empty (`add` with no argument). */
  function Transformed(v: seq<int>, m: Matrix): (r: Result<seq<int>>)
    requires Fits(v, m)
    ensures r.Ok? <==> 0 < |v| <= |m|
    ensures r.Err? ==> r.error == TypeError
    ensures r.Ok? ==> |r.value| == |m[0]|
  {
    if |m| < |v| then Err(TypeError)
    else
      var s := ScaledRows(v, m);
      assert Covers(s);
      match Added(s)
      case Err(e) => Err(e)
      case Ok(sum) => Ok(sum.elems)
  }

  /** `transform(vector, matrix)`: each row scaled in turn, then all of them added. */
  method Transform(v: seq<int>, m: Matrix) returns (r: Result<seq<int>>)
    requires Fits(v, m)
    ensures r == Transformed(v, m)
  {
    var s: seq<Vec> := [];
    var x := 0;
    while x < |v|
      invariant 0 <= x <= |v| && x <= |m|
      invariant |s| == x
      invariant forall i :: 0 <= i < x ==> s[i] == Scaled(Vec(Array, m[i]), v[i])
    {
      if x == |m| {
        return Err(TypeError);
      }
      var row := Scale(Vec(Array, m[x]), v[x]);
      s := s + [row];
      x := x + 1;
    }
    assert s == ScaledRows(v, m);
    var sum := Add(s);
    r := if sum.Ok? then Ok(sum.value.elems) else Err(sum.error);
  }

  /** The dot product of two sequences of one length. */
  function Dot(u: seq<int>, w: seq<int>): int
    requires |u| == |w|
  {
    if |u| == 0 then 0 else Dot(u[..|u| - 1], w[..|w| - 1]) + u[|u| - 1] * w[|w| - 1]
  }

  /** Column `j` of the first `n` rows of `m`. */
  function Column(m: Matrix, n: nat, j: nat): (c: seq<int>)
    requires n <= |m| && forall x :: 0 <= x < n ==> j < |m[x]|
    ensures |c| == n
  {
    seq(n, x requires 0 <= x < n => m[x][j])
  }

  /** Summing the scaled rows gives, in column `j`, the dot product of `v` with column
      `j` of the rows used. */
  lemma {:induction false} ColumnSumOfScaledRows(v: seq<int>, m: Matrix, j: nat)
    requires |v| <= |m|
    requires forall x :: 0 <= x < |v| ==> j < |m[x]|
    ensures HasIndex(ScaledRows(v, m), j)
    ensures ColumnSum(ScaledRows(v, m), j) == Dot(v, Column(m, |v|, j))
  {
    var n := |v|;
    if n > 0 {
      ColumnSumOfScaledRows(v[..n - 1], m, j);
      assert ScaledRows(v, m)[..n - 1] == ScaledRows(v[..n - 1], m);
      assert Column(m, n, j)[..n - 1] == Column(m, n - 1, j);
      assert ScaledRows(v, m)[n - 1].elems[j] == m[n - 1][j] * v[n - 1];
    }
  }

  /** `transform(v, m)` is the row-vector-times-matrix product: entry j is the sum over
      x < |v| of `v[x] * m[x][j]`; rows of `m` past |v| play no part. */
  lemma TransformIsDot(v: seq<int>, m: Matrix)
    requires Fits(v, m) && 0 < |v| <= |m|
    ensures Transformed(v, m).Ok? && |Transformed(v, m).value| == |m[0]|
    ensures forall j :: 0 <= j < |m[0]| ==> Transformed(v, m).value[j] == Dot(v, Column(m, |v|, j))
  {
    var s := ScaledRows(v, m);
    forall j | 0 <= j < |m[0]| ensures Transformed(v, m).value[j] == Dot(v, Column(m, |v|, j)) {
      ColumnSumOfScaledRows(v, m, j);
      AccumulatedIsStoredSum(Array, s, j);
    }
  }

  /** The unit row: 1 at position `j`, 0 elsewhere, `n` entries. */
  function Unit(n: nat, j: nat): seq<int>
  {
    seq(n, x => if x == j then 1 else 0)
  }

  /** The dot product with a unit row picks out one entry. */
  lemma {:induction false} DotUnitRight(v: seq<int>, j: nat)
    ensures Dot(v, Unit(|v|, j)) == if j < |v| then v[j] else 0
  {
    var n := |v|;
    if n > 0 {
      DotUnitRight(v[..n - 1], j);
      assert Unit(n, j)[..n - 1] == Unit(n - 1, j);
    }
  }

  /** The dot product of a unit row with a column picks out one entry. */
  lemma {:induction false} DotUnitLeft(w: seq<int>, i: nat)
    ensures Dot(Unit(|w|, i), w) == if i < |w| then w[i] else 0
  {
    var n := |w|;
    if n > 0 {
      DotUnitLeft(w[..n - 1], i);
      assert Unit(n, i)[..n - 1] == Unit(n - 1, i);
    }
  }

  /** Every row of `m` is at least as long as its first. */
  predicate RowsFit(m: Matrix)
  {
    forall x :: 0 < x < |m| ==> |m[0]| <= |m[x]|
  }

  /** Each row of `acc` that `_multiply`'s loop reaches fits `next`: row 0 does, and
      when row 0 transforms without throwing, so do the rows the loop reaches after it. */
  predicate RowsRead(acc: Matrix, next: Matrix)
    decreases |acc|
  {
    |acc| == 0 ||
    (Fits(acc[0], next) && (0 < |acc[0]| <= |next| ==> RowsRead(acc[1..], next)))
  }

  /** The rows a prefix of `acc` reaches are read as `acc` reads them. */
  lemma {:induction false} RowsReadPrefix(acc: Matrix, next: Matrix, n: nat)
    requires RowsRead(acc, next) && n <= |acc|
    ensures RowsRead(acc[..n], next)
  {
    if n > 0 && 0 < |acc[0]| <= |next| {
      RowsReadPrefix(acc[1..], next, n - 1);
      assert acc[..n][1..] == acc[1..][..n - 1];
    }
  }

  /** A row reached after rows that all transform without throwing fits. */
  lemma {:induction false} RowsReadAt(acc: Matrix, next: Matrix, x: nat)
    requires RowsRead(acc, next) && x < |acc|
    requires forall y :: 0 <= y < x ==> 0 < |acc[y]| <= |next|
    ensures Fits(acc[x], next)
  {
    if x > 0 {
      assert 0 < |acc[0]| <= |next|;
      RowsReadAt(acc[1..], next, x - 1);
    }
  }

  /** When no row throws, every row is reached, so every row fits. */
  lemma AllRowsFit(acc: Matrix, next: Matrix)
    requires RowsRead(acc, next)
    requires forall y :: 0 <= y < |acc| ==> 0 < |acc[y]| <= |next|
    ensures forall x :: 0 <= x < |acc| ==> Fits(acc[x], next)
  {
    forall x | 0 <= x < |acc| ensures Fits(acc[x], next) {
      RowsReadAt(acc, next, x);
    }
  }

  /** When every row fits, every reached row does. */
  lemma {:induction false} RowsReadWhenAllFit(acc: Matrix, next: Matrix)
    requires forall x :: 0 <= x < |acc| ==> Fits(acc[x], next)
    ensures RowsRead(acc, next)
  {
    if |acc| > 0 {
      assert forall x :: 0 <= x < |acc| - 1 ==> acc[1..][x] == acc[x + 1];
      RowsReadWhenAllFit(acc[1..], next);
    }
  }

  /** The identity matrix has n rows, row i being the unit row i. */
  lemma IdentityShape(n: nat)
    ensures |IdentityMatrix(n)| == n && RowsFit(IdentityMatrix(n))
    ensures forall i :: 0 <= i < n ==> IdentityMatrix(n)[i] == Unit(n, i)
  {
  }

  /** Column j of the identity matrix is the unit row j. */
  lemma IdentityColumn(n: nat, j: nat)
    requires j < n
    ensures Column(IdentityMatrix(n), n, j) == Unit(n, j)
  {
  }

  /** `transform(v, I)` is `v` for the identity of size |v|. */
  lemma TransformByIdentity(v: seq<int>)
    requires |v| > 0
    ensures Fits(v, IdentityMatrix(|v|))
    ensures Transformed(v, IdentityMatrix(|v|)) == Ok(v)
  {
    var n := |v|;
    var id := IdentityMatrix(n);
    IdentityShape(n);
    TransformIsDot(v, id);
    var t := Transformed(v, id).value;
    assert |t| == n;
    forall j | 0 <= j < n ensures t[j] == v[j] {
      IdentityColumn(n, j);
      DotUnitRight(v, j);
    }
    assert t == v;
  }

  /** The rows of `acc`, each transformed by `next`, in order; TypeError from the first
      row that throws. */
  function TransformRows(acc: Matrix, next: Matrix): (r: Result<Matrix>)
    requires RowsRead(acc, next)
    ensures r.Ok? <==> forall x :: 0 <= x < |acc| ==> 0 < |acc[x]| <= |next|
    ensures r.Err? ==> r.error == TypeError
    ensures r.Ok? ==> |r.value| == |acc|
  {
    if |acc| == 0 then Ok([])
    else
      RowsReadPrefix(acc, next, |acc| - 1);
      assert forall x :: 0 <= x < |acc| - 1 ==> acc[..|acc| - 1][x] == acc[x];
      match TransformRows(acc[..|acc| - 1], next)
      case Err(e) => Err(e)
      case Ok(done) =>
        RowsReadAt(acc, next, |acc| - 1);
        match Transformed(acc[|acc| - 1], next)
        case Err(e) => Err(e)
        case Ok(row) => Ok(done + [row])
  }

  /** What `_multiply(next, acc)` returns, with its result container taken as the
      sequence of rows its loop produces: row x is `transform(acc[x], next)`.
      TypeError when `acc` has no row (it reads `acc[0].constructor`). */
  function Multiplied(next: Matrix, acc: Matrix): (r: Result<Matrix>)
    requires RowsRead(acc, next)
    ensures r.Ok? <==> |acc| > 0 && forall x :: 0 <= x < |acc| ==> 0 < |acc[x]| <= |next|
    ensures r.Err? ==> r.error == TypeError
    ensures r.Ok? ==> |r.value| == |acc|
  {
    if |acc| == 0 then Err(TypeError) else TransformRows(acc, next)
  }

  /** When `_multiply`'s loop finishes, row x of its result is `transform(acc[x], next)`. */
  lemma {:induction false} TransformRowsValues(acc: Matrix, next: Matrix)
    requires RowsRead(acc, next) && TransformRows(acc, next).Ok?
    ensures forall x :: 0 <= x < |acc| ==>
      Fits(acc[x], next) && Transformed(acc[x], next) == Ok(TransformRows(acc, next).value[x])
  {
    AllRowsFit(acc, next);
    if |acc| > 0 {
      var n := |acc| - 1;
      RowsReadPrefix(acc, next, n);
      TransformRowsValues(acc[..n], next);
      assert forall x :: 0 <= x < n ==> acc[..n][x] == acc[x];
    }
  }

  /** One more row of `_multiply`'s loop: once the rows before x are transformed,
      row x is reached and either extends the result or throws. */
  lemma TransformRowsStep(acc: Matrix, next: Matrix, x: nat)
    requires x < |acc| && RowsRead(acc, next) && RowsRead(acc[..x], next)
    requires TransformRows(acc[..x], next).Ok?
    ensures Fits(acc[x], next) && RowsRead(acc[..x + 1], next)
    ensures TransformRows(acc[..x + 1], next) ==
      if Transformed(acc[x], next).Ok?
      then Ok(TransformRows(acc[..x], next).value + [Transformed(acc[x], next).value])
      else Err(TypeError)
  {
    assert acc[..x + 1][..x] == acc[..x];
    assert forall y :: 0 <= y < x ==> acc[..x][y] == acc[y];
    RowsReadAt(acc, next, x);
    RowsReadPrefix(acc, next, x + 1);
  }

  /** `_multiply(matrix0, matrix1)`: the rows of `matrix1` transformed by `matrix0`,
      one at a time. */
  method MultiplyStep(next: Matrix, acc: Matrix) returns (r: Result<Matrix>)
    requires RowsRead(acc, next)
    ensures r == Multiplied(next, acc)
  {
    if |acc| == 0 {
      return Err(TypeError);
    }
    var m: Matrix := [];
    var x := 0;
    RowsReadPrefix(acc, next, 0);
    while x < |acc|
      invariant 0 <= x <= |acc| && RowsRead(acc[..x], next)
      invariant TransformRows(acc[..x], next) == Ok(m)
    {
      TransformRowsStep(acc, next, x);
      var row := Transform(acc[x], next);
      if row.Err? {
        assert !(0 < |acc[x]| <= |next|);
        return Err(TypeError);
      }
      m := m + [row.value];
      x := x + 1;
    }
    assert acc[..|acc|] == acc;
    r := Ok(m);
  }

  /** The two matrices can be multiplied without an error. */
  predicate Conformable(a: Matrix, b: Matrix)
  {
    |a| > 0 && |b| > 0 && (forall i :: 0 <= i < |a| ==> 0 < |a[i]| <= |b|) &&
    forall i :: 0 <= i < |a| ==> Fits(a[i], b)
  }

  /** The classical row-by-column product: entry (i, j) is the dot product of row i
      of `a` with column j of `b`. */
  function MatMul(a: Matrix, b: Matrix): (c: Matrix)
    requires Conformable(a, b)
    ensures |c| == |a| && forall i :: 0 <= i < |a| ==> |c[i]| == |b[0]|
  {
    seq(|a|, i requires 0 <= i < |a| =>
      seq(|b[0]|, j requires 0 <= j < |b[0]| => Dot(a[i], Column(b, |a[i]|, j))))
  }

  /** `_multiply(b, a)` succeeds exactly on conformable matrices, and then it is the
      classical product `a · b`: entry (i, j) is the sum over k of `a[i][k] * b[k][j]`. */
  lemma MultipliedIsMatMul(a: Matrix, b: Matrix)
    requires RowsRead(a, b)
    ensures Multiplied(b, a).Ok? <==> Conformable(a, b)
    ensures Multiplied(b, a).Ok? ==> Multiplied(b, a).value == MatMul(a, b)
  {
    var r := Multiplied(b, a);
    if r.Ok? {
      TransformRowsValues(a, b);
      var c := MatMul(a, b);
      forall i | 0 <= i < |a| ensures r.value[i] == c[i] {
        TransformIsDot(a[i], b);
      }
    }
  }

  /** `multiply(a, b)` on conformable matrices is the classical product `a · b`. */
  lemma MultiplyIsMatMul(a: Matrix, b: Matrix)
    requires Conformable(a, b)
    ensures FoldFits([a, b]) && Folded([a, b]) == Ok(MatMul(a, b))
  {
    assert [a, b][..1] == [a];
    RowsReadWhenAllFit(a, b);
    MultipliedIsMatMul(a, b);
  }

  /** Every step of `multiply(...ms)` reads only rows at least as long as the first row
      of the matrix it reads them from: each accumulator the fold reaches fits the next
      argument. */
  predicate FoldFits(ms: seq<Matrix>)
    decreases |ms|, 0
  {
    |ms| > 0 &&
    (|ms| > 1 ==>
      FoldFits(ms[..|ms| - 1]) &&
      (Folded(ms[..|ms| - 1]).Ok? ==> RowsRead(Folded(ms[..|ms| - 1]).value, ms[|ms| - 1])))
  }

  /** What `multiply(m0, m1, …)` returns: the first argument itself, then each further
      argument applied with `_multiply`, left to right; the first error stops it. The
      result has as many rows as the first argument. */
  function Folded(ms: seq<Matrix>): (r: Result<Matrix>)
    requires FoldFits(ms)
    ensures |ms| == 1 ==> r == Ok(ms[0])
    ensures r.Err? ==> r.error == TypeError
    ensures r.Ok? ==> |r.value| == |ms[0]|
    decreases |ms|, 1
  {
    if |ms| == 1 then Ok(ms[0])
    else
      match Folded(ms[..|ms| - 1])
      case Err(e) => Err(e)
      case Ok(acc) => Multiplied(ms[|ms| - 1], acc)
  }

  /** When every later argument has rows no shorter than its first, every step fits. */
  lemma {:induction false} FoldFitsWhenRowsFit(ms: seq<Matrix>)
    requires |ms| > 0 && forall i :: 1 <= i < |ms| ==> RowsFit(ms[i])
    ensures FoldFits(ms)
  {
    if |ms| > 1 {
      FoldFitsWhenRowsFit(ms[..|ms| - 1]);
      var f := Folded(ms[..|ms| - 1]);
      if f.Ok? {
        RowsReadWhenAllFit(f.value, ms[|ms| - 1]);
      }
    }
  }

  /** A prefix of a fold that fits fits too. */
  lemma {:induction false} FoldFitsPrefix(ms: seq<Matrix>, x: nat)
    requires FoldFits(ms) && 1 <= x <= |ms|
    ensures FoldFits(ms[..x])
    decreases |ms| - x
  {
    if x < |ms| {
      FoldFitsPrefix(ms, x + 1);
      assert ms[..x + 1][..x] == ms[..x];
    } else {
      assert ms[..x] == ms;
    }
  }

  /** Once the fold of a prefix has thrown, so has the fold of the whole list. */
  lemma {:induction false} FoldedErrorSticks(ms: seq<Matrix>, x: nat)
    requires 1 <= x <= |ms| && FoldFits(ms)
    ensures FoldFits(ms[..x])
    ensures Folded(ms[..x]).Err? ==> Folded(ms) == Folded(ms[..x])
    decreases |ms| - x
  {
    FoldFitsPrefix(ms, x);
    if x < |ms| {
      FoldFitsPrefix(ms, x + 1);
      assert ms[..x + 1][..x] == ms[..x];
      FoldedErrorSticks(ms, x + 1);
    } else {
      assert ms[..x] == ms;
    }
  }

  /** One more argument: the fold of the first x + 1 matrices applies `_multiply` to
      the fold of the first x, unless that has already thrown. */
  lemma FoldedStep(ms: seq<Matrix>, x: nat)
    requires 1 <= x < |ms| && FoldFits(ms)
    ensures FoldFits(ms[..x]) && FoldFits(ms[..x + 1])
    ensures Folded(ms[..x]).Err? ==> Folded(ms[..x + 1]) == Folded(ms[..x])
    ensures Folded(ms[..x]).Ok? ==> RowsRead(Folded(ms[..x]).value, ms[x])
    ensures Folded(ms[..x]).Ok? ==> Folded(ms[..x + 1]) == Multiplied(ms[x], Folded(ms[..x]).value)
  {
    FoldFitsPrefix(ms, x + 1);
    var p := ms[..x + 1];
    assert p[..|p| - 1] == ms[..x] && p[|p| - 1] == ms[x];
    assert FoldFits(p[..|p| - 1]);
    assert Folded(p[..|p| - 1]).Ok? ==> RowsRead(Folded(p[..|p| - 1]).value, p[|p| - 1]);
  }

  /** `multiply(...matrices)`: the accumulator starts as the first argument and is
      replaced by `_multiply(next, accumulator)` for each further argument. */
  method Multiply(ms: seq<Matrix>) returns (r: Result<Matrix>)
    requires FoldFits(ms)
    ensures r == Folded(ms)
  {
    var m := ms[0];
    var x := 1;
    assert ms[..1] == [ms[0]];
    FoldFitsPrefix(ms, 1);
    while x < |ms|
      invariant 1 <= x <= |ms|
      invariant FoldFits(ms[..x]) && Folded(ms[..x]) == Ok(m)
    {
      FoldedStep(ms, x);
      var step := MultiplyStep(ms[x], m);
      if step.Err? {
        FoldedErrorSticks(ms, x + 1);
        return step;
      }
      m := step.value;
      x := x + 1;
    }
    assert ms[..|ms|] == ms;
    r := Ok(m);
  }

  /** `multiply(a)` is `a` itself, and a longer argument list folds left:
      `multiply(a, b, c)` is `multiply(multiply(a, b), c)`. */
  lemma MultiplyFoldsLeft(a: Matrix, b: Matrix, c: Matrix)
    requires FoldFits([a, b, c])
    ensures Folded([a]) == Ok(a)
    ensures FoldFits([a, b])
    ensures Folded([a, b]).Err? ==> Folded([a, b, c]) == Folded([a, b])
    ensures Folded([a, b]).Ok? ==>
      FoldFits([Folded([a, b]).value, c]) && Folded([a, b, c]) == Folded([Folded([a, b]).value, c])
  {
    assert [a, b, c][..2] == [a, b];
    assert [a, b][..1] == [a];
    if Folded([a, b]).Ok? {
      assert [Folded([a, b]).value, c][..1] == [Folded([a, b]).value];
    }
  }

  /** `multiply(a, I)` is `a` for the identity whose size is the length of a's rows. */
  lemma MultiplyByIdentityRight(a: Matrix, n: nat)
    requires n > 0 && |a| > 0 && forall i :: 0 <= i < |a| ==> |a[i]| == n
    ensures FoldFits([a, IdentityMatrix(n)])
    ensures Folded([a, IdentityMatrix(n)]) == Ok(a)
  {
    var id := IdentityMatrix(n);
    IdentityShape(n);
    assert [a, id][..1] == [a];
    assert FoldFits([a]);
    RowsReadWhenAllFit(a, id);
    assert Folded([a, id]) == Multiplied(id, a);
    forall i | 0 <= i < |a| ensures Transformed(a[i], id) == Ok(a[i]) {
      TransformByIdentity(a[i]);
    }
    TransformRowsValues(a, id);
    var c := Multiplied(id, a).value;
    assert c == a;
  }

  /** `multiply(I, a)` is `a` for a matrix `a` whose rows share one length and the
      identity whose size is a's row count. */
  lemma MultiplyByIdentityLeft(a: Matrix)
    requires |a| > 0 && forall i :: 0 <= i < |a| ==> |a[i]| == |a[0]|
    ensures FoldFits([IdentityMatrix(|a|), a])
    ensures Folded([IdentityMatrix(|a|), a]) == Ok(a)
  {
    var n := |a|;
    var id := IdentityMatrix(n);
    IdentityShape(n);
    assert [id, a][..1] == [id];
    assert FoldFits([id]);
    RowsReadWhenAllFit(id, a);
    assert Folded([id, a]) == Multiplied(a, id);
    forall i | 0 <= i < n ensures Transformed(id[i], a) == Ok(a[i]) {
      TransformIsDot(id[i], a);
      var t := Transformed(id[i], a).value;
      forall j | 0 <= j < |a[0]| ensures t[j] == a[i][j] {
        DotUnitLeft(Column(a, n, j), i);
      }
      assert t == a[i];
    }
    TransformRowsValues(id, a);
    var c := Multiplied(a, id).value;
    assert c == a;
  }

  /** What `_multiply(next, acc)` returns as written. Its result container is
      `_matrix(acc.length, acc[0].constructor)`, arguments swapped: a number as the
      type gives `new ArrayBuffer(NaN)`, an empty buffer, and the rows are attached to
      it as indexed properties. A buffer has no `length`, so when `acc` is such a
      buffer, `_matrix` reads `undefined.byteLength` and throws TypeError. */
  function MultipliedAsWritten(next: Matrix, acc: MatrixObject): (r: Result<MatrixObject>)
    requires acc.Rows? ==> RowsRead(acc.rows, next)
    ensures acc.Buffer? ==> r == Err(TypeError)
    ensures acc.Rows? ==> r.Ok? == Multiplied(next, acc.rows).Ok?
    ensures acc.Rows? && r.Ok? ==> r.value == Buffer(Multiplied(next, acc.rows).value)
  {
    match acc
    case Rows(rows) =>
      if |rows| == 0 then Err(TypeError)
      else
        (match TransformRows(rows, next)
         case Err(e) => Err(e)
         case Ok(done) => Ok(Buffer(done)))
    case Buffer(_) => Err(TypeError)
  }

  /** What `multiply(...)` returns as written: `undefined` (None) with no argument,
      else the first argument folded with `_multiply` as written. Only the first step
      can succeed: from two arguments on, a result is a buffer, and from three on the
      call throws. */
  function FoldedAsWritten(ms: seq<Matrix>): (r: Result<Option<MatrixObject>>)
    requires |ms| >= 2 ==> RowsRead(ms[0], ms[1])
    ensures |ms| == 0 ==> r == Ok(None)
    ensures |ms| == 1 ==> r == Ok(Some(Rows(ms[0])))
    ensures |ms| >= 2 && r.Ok? ==> r.value.Some? && r.value.value.Buffer?
    ensures |ms| >= 3 ==> r == Err(TypeError)
  {
    if |ms| == 0 then Ok(None)
    else if |ms| == 1 then Ok(Some(Rows(ms[0])))
    else
      match FoldedAsWritten(ms[..|ms| - 1])
      case Err(e) => Err(e)
      case Ok(None) => Ok(None)
      case Ok(Some(acc)) =>
        match MultipliedAsWritten(ms[|ms| - 1], acc)
        case Err(e) => Err(e)
        case Ok(m) => Ok(Some(m))
  }

  /** With two arguments the code as written gives the intended product, its rows
      attached to a buffer object. */
  lemma AsWrittenAgreesOnTwo(a: Matrix, b: Matrix)
    requires RowsRead(a, b)
    ensures FoldFits([a, b])
    ensures Folded([a, b]).Ok? ==> FoldedAsWritten([a, b]) == Ok(Some(Buffer(Folded([a, b]).value)))
    ensures Folded([a, b]).Err? ==> FoldedAsWritten([a, b]) == Err(Folded([a, b]).error)
  {
    assert [a, b][..1] == [a];
  }

  /** With a third argument the code as written always throws: `multiply(a, b, c)`
      is TypeError whatever the three matrices are. */
  lemma AsWrittenThrowsOnThree(a: Matrix, b: Matrix, c: Matrix)
    requires RowsRead(a, b)
    ensures FoldedAsWritten([a, b, c]) == Err(TypeError)
  {
    AsWrittenAgreesOnTwo(a, b);
    assert [a, b, c][..2] == [a, b];
  }

  /** The concrete case: `multiply(I, I, I)` for the 2×2 identity is meant to be `I`,
      and as written it throws TypeError. */
  lemma IdentityCubedAsWritten()
    ensures FoldFits([Identity2d(), Identity2d(), Identity2d()])
    ensures Folded([Identity2d(), Identity2d(), Identity2d()]) == Ok(Identity2d())
    ensures FoldedAsWritten([Identity2d(), Identity2d(), Identity2d()]) == Err(TypeError)
  {
    var i := Identity2d();
    IdentityShape(2);
    FoldFitsWhenRowsFit([i, i, i]);
    MultiplyByIdentityRight(i, 2);
    MultiplyFoldsLeft(i, i, i);
    AsWrittenThrowsOnThree(i, i, i);
  }

  /** The product a Float64Array benchmark would check never exists: `Matrix` on a typed
      kind gives an empty buffer, and `_multiply` with that buffer as its accumulator
      reads `undefined.constructor` and throws TypeError. */
  lemma TypedProductThrows(m0: Matrix, m1: Matrix)
    ensures NewMatrix(Float64Array, 150, Some(m0)) == Buffer([])
    ensures MultipliedAsWritten(m1, NewMatrix(Float64Array, 150, Some(m0))) == Err(TypeError)
  { }

  /** A call that throws before `add` reads a short row is inside the model:
      `transform([1, 2, 3], [[1, 2], [3]])` has no third row to scale, and
      `_multiply([[1, 2], [3]], [[], [1, 1]])` throws on its empty first row before it
      reaches the second. */
  lemma ShortRowsNotReached()
    ensures Fits([1, 2, 3], [[1, 2], [3]])
    ensures Transformed([1, 2, 3], [[1, 2], [3]]) == Err(TypeError)
    ensures RowsRead([[], [1, 1]], [[1, 2], [3]])
    ensures Multiplied([[1, 2], [3]], [[], [1, 1]]) == Err(TypeError)
  {
    var acc: Matrix := [[], [1, 1]];
    var next: Matrix := [[1, 2], [3]];
    assert acc[1..] == [[1, 1]] && [[1, 1]][1..] == [];
  }
}
