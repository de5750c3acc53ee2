# la.js in Dafny

A model of la.js, a small linear-algebra library for JavaScript. The library has:

- a closed list of ten element kinds: `Array` and nine typed-array constructors;
- the `IDENTITY` sentinel;
- curried factories `Vector(kind)(dimensions)(values)` and `Matrix(kind)(dimensions)(values)`, which validate the kind (TypeError) and the dimension (RangeError);
- the constructors `_vector`, `_matrix` and `_identity`;
- the arithmetic `scale`, variadic `add`, `transform` (row vector times matrix) and `multiply`, a left fold of `_multiply`;
- fixed-size helpers for two and three dimensions.

Modules, one file each:

- `Results` (results.dfy): the outcome of a call (a value or a thrown TypeError/RangeError) and optional arguments.
- `Kinds` (kinds.dfy): the kind list and its `indexOf` test, and the store conversion a typed array applies on every write. Int8/16/32 and Uint8/16/32 wrap modulo 2^k. Uint8Clamped clamps. Array and Float kinds keep the value.
- `Dimensions` (dimensions.dfy): JavaScript Numbers (NaN, ±Infinity, finite reals), the ToInt32 conversion behind `d | 0`, and the two factories' dimension tests.
- `Vectors` (vectors.dfy): `_vector`, the `Vector` factory, `Vector2d` and `Vector3d`.
- `Arithmetic` (arithmetic.dfy): `scale`, `add`, `scale2d`, `scale3d`, `add2d` and `add3d`.
- `Matrices` (matrices.dfy): `_matrix`, `_identity`, the `Matrix` factory, `Matrix2d` and `Matrix3d`.
- `Products` (products.dfy): `transform`, `_multiply`, `multiply`, the classical row-by-column product they are proved equal to, and the identity laws.

Elements are unbounded integers. A vector is its kind plus its elements; a plain-Array matrix is a sequence of rows.
The loops of the library (`_vector`'s zero fill, `_matrix`, `_identity`, `scale`, `add`, `transform`, `_multiply`, `multiply`) are methods. Each is proved equal to a specification function, and the properties the library promises are proved about those functions.
A JavaScript exception is an `Err(TypeError)` or `Err(RangeError)` result.

## Model

| member | source | states |
|---|---|---|
| Kinds.TypesListed | la.js:12-23 | `TYPES` holds each of the ten listed constructors exactly once and nothing else |
| Kinds.IndexOf | la.js:30 | `TYPES.indexOf(kind)` is -1 exactly when the kind is not listed; otherwise it is the first position holding the kind |
| Kinds.MakeFactory | la.js:71-73 | the kind check `!~TYPES.indexOf(type)` passes exactly for the ten listed kinds and keeps the kind; otherwise TypeError |
| Kinds.Store | la.js:93 | a write into a typed array always leaves a value the kind can hold, and keeps the written value exactly when the kind can already hold it |
| Kinds.StoreAbsorbs | la.js:105-107 | storing after each `+=` step gives the same value as one store of the whole sum: always for the wrapping kinds, and for Uint8Clamped when the terms are non-negative |
| Dimensions.ToInt32 | la.js:76 | `d \| 0` lies in the signed 32-bit range |
| Dimensions.Int32Exact | la.js:76 | `d === (d \| 0)` holds exactly for integers in the signed 32-bit range, and then `d \| 0` is `d` |
| Dimensions.VectorRejects | la.js:76 | the vector dimension test passes exactly for the integers 1 .. 2^31-1, so NaN, ±Infinity, fractions, 0, negatives and values beyond int32 are all rejected; on a pass `d \| 0` is `d` |
| Dimensions.MatrixRejects | la.js:158 | the matrix dimension test passes exactly for the non-zero int32 integers, negative ones included; on a pass `d \| 0` is `d` |
| Vectors.NewVector | la.js:55-69 | `_vector` keeps the kind and gives a vector whose elements the kind can hold. Its length is that of `values` when given (not `d`), else `d` |
| Vectors.MakeVector | la.js:55-69 | the zero-filling loop builds exactly `NewVector` |
| Vectors.NewVectorKeepsValues | la.js:55-69 | values the kind can hold come back unchanged; for a plain Array the result is the caller's values themselves |
| Vectors.VectorDimensions | la.js:75-81 | `Vector(kind)(d)` succeeds exactly for integer `d` in 1 .. 2^31-1 and then keeps kind and `d`; otherwise RangeError |
| Vectors.VectorOf | la.js:71-83 | the whole curried call: TypeError for an unlisted kind, else RangeError for a bad dimension, else a vector of that kind: `d` zeros without values, or the caller's values for a plain Array |
| Vectors.Vector2 | la.js:27 | `_vector2d(t, x, y)` is the vector `[x, y]` of kind `t`, each value as the kind stores it |
| Vectors.Vector3 | la.js:41 | `_vector3d(t, x, y, z)` is the vector `[x, y, z]` of kind `t`, each value as the kind stores it |
| Vectors.Vector2d | la.js:29-39 | `Vector2d(kind)(values)` is a two-element vector of the kind: `[0, 0]` without values, else the first two values as the kind stores them (themselves for a plain Array) |
| Vectors.Vector3d | la.js:43-53 | `Vector3d(kind)(values)` is a three-element vector of the kind: `[0, 0, 0]` without values, else the first three values as the kind stores them |
| Vectors.Vector2dAgrees | la.js:29-39 | `Vector2d(kind)(values)` builds what `_vector(kind, 2, values)` builds, for two values or none |
| Vectors.Vector3dAgrees | la.js:43-53 | `Vector3d(kind)(values)` builds what `_vector(kind, 3, values)` builds, for three values or none |
| Arithmetic.Scaled | la.js:89-96 | what `scale(v, s)` returns keeps v's kind and length and holds only values the kind can hold |
| Arithmetic.Scale | la.js:89-96 | `scale(v, s)` is a new vector of v's kind and length whose entry i is `v[i] * s` as stored by the kind |
| Arithmetic.ScaleByOne | la.js:89-96 | `scale(v, 1)` equals `v` element-wise |
| Arithmetic.Added | la.js:102-110 | what `add` returns: TypeError exactly when there is no argument, otherwise a vector of the first argument's kind and length holding values the kind can hold |
| Arithmetic.Add | la.js:102-110 | `add` throws TypeError exactly when it has no argument. Otherwise it gives a vector of the first argument's kind and length, entry x accumulated over all arguments |
| Arithmetic.AccumulatedInRange | la.js:105-107 | every accumulated entry is a value the kind can hold |
| Arithmetic.AccumulatedIsStoredSum | la.js:105-107 | entry x of `add` is the kind's store of the sum over all arguments of their entry x (the plain sum for Array); for Uint8Clamped only when no term is negative |
| Arithmetic.AddIgnoresOrder | la.js:102-110 | for vectors of one kind and one length, any reordering of the arguments gives the same sum |
| Arithmetic.AddCommutes | la.js:102-110 | `add(v1, v2)` equals `add(v2, v1)` for two vectors of one kind and length |
| Arithmetic.Scale2d | la.js:85 | `scale2d(v, s)` is a two-element vector of v's kind whose entry i is `v[i] * s` as the kind stores it |
| Arithmetic.Scale2dAgrees | la.js:85 | `scale2d` gives what `scale` gives on two-element vectors |
| Arithmetic.Scale3dAsWritten | la.js:87 | `scale3d` as written throws TypeError on every input |
| Arithmetic.Scale3dAsWrittenThrows | la.js:87 | `scale3d` as written never gives the scaled vector: it throws TypeError |
| Arithmetic.Scale3d | la.js:87 | `scale3d` reading `v.constructor` is a three-element vector of v's kind whose entry i is `v[i] * s` as the kind stores it |
| Arithmetic.Scale3dAgrees | la.js:87 | `scale3d` reading `v.constructor` gives what `scale` gives on three-element vectors |
| Arithmetic.Add2d | la.js:98 | `add2d(v0, v1)` is a two-element vector of v0's kind whose entry i is `v0[i] + v1[i]` as the kind stores it |
| Arithmetic.Add3d | la.js:100 | `add3d(v0, v1, v2)` is a three-element vector of v0's kind whose entry i is `v0[i] + v1[i] + v2[i]` as the kind stores it |
| Arithmetic.Add2dAgrees | la.js:98 | `add2d(v0, v1)` gives what `add(v0, v1)` gives, for every kind including Uint8Clamped, when v0 holds values its kind can hold |
| Arithmetic.Add3dAgrees | la.js:100 | `add3d(v0, v1, v2)` gives what `add(v0, v1, v2)` gives |
| Matrices.NewMatrix | la.js:140-151 | a plain-Array matrix has `max(d, 0)` rows; row x is `values[x]` itself, or `d` zeros when there is no such row. A typed kind gives an empty buffer |
| Matrices.MakeMatrix | la.js:140-151 | the row-filling loop builds exactly `NewMatrix` |
| Matrices.MakeIdentity | la.js:171-178 | `_identity` on a plain Array is the matrix with entry [i][j] = 1 iff i = j and 0 otherwise; on a typed kind it throws TypeError for d ≥ 1 |
| Matrices.MatrixDimensions | la.js:157-163 | `Matrix(kind)(d)` succeeds exactly for non-zero int32 `d` and keeps kind and `d`; otherwise RangeError |
| Matrices.BuildMatrix | la.js:161-163 | the sentinel gives the identity, otherwise `_matrix`; a negative dimension gives an empty plain-Array matrix |
| Matrices.ZeroMatrixIsSquare | la.js:140-148 | without values a plain-Array matrix of dimension d is d rows of d zeros |
| Matrices.Identity2d | la.js:167 | `_identity2d(Array)` is the 2×2 identity |
| Matrices.Identity3d | la.js:169 | `_identity3d(Array)` is the 3×3 identity |
| Matrices.Matrix2d | la.js:114-124 | `Matrix2d(Array)` gives two rows: two zero rows by default, the 2×2 identity for the sentinel, else the first two rows of the values |
| Matrices.Matrix2dAgrees | la.js:114-124 | `Matrix2d(Array)` gives what `Matrix(Array)(2)` gives, for the sentinel (`_identity2d` is the 2×2 identity), no values, or values |
| Matrices.Matrix3dAsWritten | la.js:128-138 | `Matrix3d(Array)` as written reads three rows: by default two zero rows and an undefined third; the identity rows for the sentinel; else row i of the values, undefined where there is none |
| Matrices.Matrix3d | la.js:128-138 | `Matrix3d(Array)` with a three-row default gives three rows: zeros by default, the 3×3 identity for the sentinel, else the first three rows of the values |
| Matrices.Matrix3dDefaultLacksRow | la.js:134 | the default of `Matrix3d` as written has no third row, while the 3×3 zero matrix has one |
| Matrices.Matrix3dAgrees | la.js:128-138 | `Matrix3d(Array)` with a three-row default gives what `Matrix(Array)(3)` gives; it agrees with the code as written wherever that reads three rows |
| Products.Transformed | la.js:184-191 | `transform(v, m)` succeeds exactly when 0 < \|v\| ≤ \|m\|, and then has the length of `m[0]`. An empty `v` or a missing row gives TypeError |
| Products.Transform | la.js:184-191 | the loop of `scale` calls followed by `add` computes exactly `Transformed` |
| Products.TransformIsDot | la.js:184-191 | entry j of `transform(v, m)` is the sum over x < \|v\| of `v[x] * m[x][j]`; rows of `m` at index ≥ \|v\| play no part |
| Products.IdentityShape | la.js:171-178 | the identity matrix has d rows, row i being the unit row i |
| Products.TransformByIdentity | la.js:184-191 | `transform(v, I)` is `v` for the identity of size \|v\| |
| Products.TransformRows | la.js:201-202 | the rows of the accumulator, each transformed in turn; it fails exactly when some row is empty or longer than the next matrix, and then with TypeError |
| Products.TransformRowsValues | la.js:201-202 | when the loop finishes, row x of its result is `transform(acc[x], next)` |
| Products.Multiplied | la.js:198-205 | `_multiply(next, acc)` succeeds exactly when `acc` has rows and every row is non-empty and no longer than `next`; the result has as many rows as `acc`; otherwise TypeError |
| Products.MultiplyStep | la.js:198-205 | the loop of `_multiply` computes exactly `Multiplied` |
| Products.MultipliedIsMatMul | la.js:198-205 | `_multiply(b, a)` succeeds exactly on conformable matrices, and is then the classical product `a · b`, entry [i][j] being the sum over k of `a[i][k] * b[k][j]` |
| Products.Folded | la.js:207-214 | `multiply(a)` is `a`; the fold's only error is TypeError, and its result has as many rows as the first argument |
| Products.FoldFitsWhenRowsFit | la.js:207-214 | when every matrix after the first has rows at least as long as its first row, every step of the `multiply` fold reads only rows long enough |
| Products.FoldedErrorSticks | la.js:210-211 | once a prefix of the fold has thrown, the whole `multiply` call has thrown the same error |
| Products.Multiply | la.js:207-214 | the accumulator loop of `multiply` computes exactly the left fold `Folded` |
| Products.MultiplyFoldsLeft | la.js:207-214 | `multiply(a)` is `a`, and `multiply(a, b, c)` is `multiply(multiply(a, b), c)` |
| Products.MultiplyByIdentityRight | la.js:207-214 | `multiply(a, I)` is `a` |
| Products.MultiplyByIdentityLeft | la.js:207-214 | `multiply(I, a)` is `a` for a matrix whose rows share one length |
| Products.MultipliedAsWritten | la.js:198-205 | `_multiply` as written succeeds exactly when the intended one does, giving its rows attached to a buffer; on a buffer accumulator it throws TypeError |
| Products.FoldedAsWritten | la.js:207-214 | `multiply` as written gives `undefined` for no argument and the argument for one; from two arguments a result is a buffer, and from three it always throws TypeError |
| Products.AsWrittenAgreesOnTwo | la.js:198-205 | with two arguments, the swapped-argument container of `_multiply` as written still carries the intended product's rows |
| Products.AsWrittenThrowsOnThree | la.js:199 | as written, every call of `multiply` with three matrices whose first product succeeds throws TypeError |
| Products.MultiplyIsMatMul | la.js:207-214 | `multiply(a, b)` on conformable matrices is the classical product `a · b` |
| Products.TypedProductThrows | test.js:11-36 | `Matrix(Float64Array)(150)(m0)` is an empty buffer, and multiplying with it as the accumulator throws TypeError, so the benchmark's product is never computed |
| Products.ShortRowsNotReached | la.js:184-205 | calls that throw before `add` would read a short row are inside the model and throw TypeError: `transform([1, 2, 3], [[1, 2], [3]])`, and `_multiply([[1, 2], [3]], [[], [1, 1]])`, which stops at its empty first row |
| Products.IdentityCubedAsWritten | la.js:207-214 | `multiply(I, I, I)` for the 2×2 identity is meant to be `I`, and as written it throws TypeError |

## Left out

- Float32Array and Float64Array: elements are integers, so floating-point rounding and fractional values are not modelled. These two kinds store a value unchanged.
- Numbers beyond 2^53: JavaScript doubles round large integer sums and products; the model's integers do not.
- Dimension arguments that are not Numbers (strings, objects, `undefined`) are not modelled. Their coercion by `isNaN` and `| 0` is outside the model.
- Typed-kind matrices: `_matrix` gives an empty `ArrayBuffer`, modelled as `Buffer([])` with the values ignored. `Matrix2d`/`Matrix3d` on a typed kind feed whole rows into a typed-array constructor; only the plain-Array kind is modelled for them.
- Matrix rows are plain-Array rows; typed vectors as matrix rows are not modelled.
- Aliasing: "returns the caller's array itself" is modelled as equality of values. No library operation writes into an argument, so inputs are unchanged by construction.
- Arithmetic.Add: requires every argument to be at least as long as the first. For a shorter one, `v[x] += undefined` yields NaN: a plain Array or a Float kind keeps NaN, and an integer typed kind stores it as 0 and carries on. Neither is modelled.
- Arithmetic.Added: the same requirement as `Arithmetic.Add`.
- Products.Transformed: when no row is missing (|v| ≤ |m|), requires the rows of `m` it scales (those below |v|) to be at least as long as row 0. A shorter one reaches `add`, which reads past its end: the NaN case of `Arithmetic.Add`. A call with a missing row throws before `add` and is not restricted. Products.Transform carries the same requirement.
- Products.TransformRows: requires each row of the accumulator that the loop reaches (every earlier row transformed without throwing) to meet the requirement of `Products.Transformed`; rows after the first throwing one are unrestricted. Products.Multiplied, Products.MultiplyStep, Products.MultipliedIsMatMul, Products.MultipliedAsWritten, Products.FoldedAsWritten (for its first step), Products.AsWrittenAgreesOnTwo and Products.AsWrittenThrowsOnThree carry the same requirement.
- Products.Folded: requires at least one matrix, and every step of the fold to meet the requirement of `Products.Multiplied`. `multiply()` with no argument returns `undefined`; only `Products.FoldedAsWritten` models that. Products.Multiply carries the same requirement.
- Vectors.Vector2d: requires two values (Vectors.Vector3d: three) when values are given. A missing value is `undefined`: a plain Array keeps it, a Float kind stores NaN, and an integer typed kind stores 0. None of this is modelled.
- Arithmetic.Scale2d, Arithmetic.Add2d: require vectors of at least two elements (Arithmetic.Scale3d, Arithmetic.Add3d: three), the same missing-element case: `scale2d([5], 2)` on a plain Array gives `[10, NaN]`, which is not modelled.
- Matrices.Matrix2d: requires the plain-Array kind and at least two rows (Matrices.Matrix3d: three rows).
- Arithmetic.Add3dAgrees: requires that no negative term be added into a Uint8Clamped vector. From three terms on, clamping after each step differs from clamping the sum once, as `add3d` does: a clamped `[200]` plus `[100]` plus `[-100]` is 155 through `add` and 200 through `add3d`.
- Kinds.StoreAbsorbs: for Uint8Clamped it requires non-negative terms, for the same reason.
- `transform2d`, `transform3d`, `multiply2d` and `multiply3d` are not modelled. They call `sum2d`/`sum3d`, which la.js never defines, so every call throws TypeError (after evaluating its `scale2d`/`scale3d` arguments; in `transform3d` the first `scale3d` argument already throws, on the typo of la.js:87), and none returns a value.
- Module-export wiring, and the `Symbol` identity of `IDENTITY` beyond being a distinct constructor argument.
- Memory limits: a huge dimension makes JavaScript throw while allocating; the model has no allocation limit.
- test.js is a benchmark and profiling script, not part of this model. Its sanity check compares `multiply` with the classical product (`Products.MultiplyIsMatMul`), but on Float64Array matrices it is never reached: `Products.TypedProductThrows` shows that `la.multiply(la0, la1)` throws TypeError first.

## Findings

| source | as written | input that shows it | evidently intended | confidence | as-written member | corrected member |
|---|---|---|---|---|---|---|
| la.js:87 | `scale3d` passes `v.contrustor` (undefined) to `_vector3d`, which runs `new undefined(...)` | `scale3d([1, 2, 3], 2)` throws TypeError | `v.constructor`, giving `[2, 4, 6]` like `scale` | high; not executed | Arithmetic.Scale3dAsWrittenThrows | Arithmetic.Scale3dAgrees |
| la.js:134 | the default of `Matrix3d` is `[[0, 0, 0], [0, 0, 0]]`, two rows, so the third row read is `undefined` | `Matrix3d(Array)()` gives `[[0,0,0], [0,0,0], undefined]` | three zero rows, as `Matrix(Array)(3)()` gives | high; not executed | Matrices.Matrix3dDefaultLacksRow | Matrices.Matrix3dAgrees |
| la.js:199 | `_multiply` allocates its result with `_matrix(matrix1.length, matrix1[0].constructor)`, arguments swapped. The result is a buffer without `length`, so the next step reads `undefined.byteLength` | `multiply(I, I, I)` for the 2×2 identity throws TypeError | a matrix of `matrix1.length` rows, so that the fold gives `I` | high; not executed | Products.AsWrittenThrowsOnThree | Products.Multiply |
