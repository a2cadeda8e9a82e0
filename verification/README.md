# Matrices in Dafny

A model of the `Matrix` class of the Matrices library. A `Matrix` is a dense,
rectangular grid of numbers with at least one row and one column and a shape
fixed at construction. It offers:

- three validating constructors: an n-by-n zero matrix, an m-by-n zero matrix,
  and a matrix over an existing two-dimensional array;
- accessors for the backing array and the dimensions;
- a 1-based indexer that reads and writes entries in place;
- structural equality with the C# null rules, plus `==` and `!=`;
- arithmetic: sum, scalar multiplication in both argument orders, matrix
  product, negation, subtraction, the Hadamard (entry-wise) product and the
  transpose. Each validates its operands, allocates a zero matrix of the
  result's shape and fills it with nested loops.

The project has three modules.

- `Grids` (`grids.dfy`) is the value layer.
  - A grid is a `seq<seq<real>>`, indexed from 0.
  - Each operation has a function giving its intended result:
    - `Plus`, `Scaled`, `Hadamard` and `Transposed`;
    - `Product`, built from `Dot`, the dot product accumulated in ascending k;
    - `Updated`, for a single entry write;
    - `Zero` and `Ones`.
  - The algebraic laws of those functions are proved here.
- `Matrices` (`matrix.dfy`) is the class itself.
  - `class Matrix` has the source's three fields: `data: array2<real>`,
    `numRows` and `numColumns`.
  - `Valid()` ties the array's lengths to the dimensions and requires both to
    be at least 1.
  - `Contents()` is the grid the array currently holds.
  - Methods that can throw in C# return a `Result<Matrix>`. Its error tags
    are `InvalidDimension`, `NullInput`, `NullOperand` and
    `DimensionMismatch`.
  - A null reference is a `Matrix?` or `array2?<real>` argument.
  - Every arithmetic method is proved to return a fresh, valid matrix. Its
    `Contents()` is the `Grids` function of the operands' contents.
  - The methods have no `modifies` clause, so they provably leave their
    operands unchanged.
- `TestCases` (`cases.dfy`) holds the worked cases of the library's test
  suite:
  - as lemmas about the `Grids` functions;
  - plus one method, `SharedArrayCase`, that exercises two matrices built over
    one array.

Entries are exact reals, so every law below holds over exact arithmetic only.

The constructor from an array adopts the caller's array without copying it, as
the code does (`Matrix.cs:57`). `Data()` returns that same array. A write
through any matrix over that array, or through the array itself, is seen by
every matrix over it.

Copying would protect a matrix from writes through the caller's array; the
model keeps the sharing the code has.

## Model

| member | source | states |
|---|---|---|
| `Matrices.Matrix.Square` | Matrix.cs:18-30 | n < 1 gives `InvalidDimension`. Otherwise the result is a fresh n-by-n matrix over a fresh array whose contents are the zero grid. |
| `Matrices.Matrix.Rectangular` | Matrix.cs:33-45 | m < 1 or n < 1 gives `InvalidDimension`. Otherwise the result is a fresh m-by-n matrix over a fresh array whose contents are the zero grid. |
| `Matrices.Matrix.Zeros` | Matrix.cs:37-44 | The zero-filling loops: a fresh m-by-n array, every entry of which is 0. |
| `Matrices.Matrix.FromArray` | Matrix.cs:48-58 | A null array gives `NullInput`, and an array with no rows or no columns gives `InvalidDimension`. Otherwise the dimensions are the array's lengths, the matrix's `data` is the caller's array itself (no copy, no freshness), and entry (i, j) is `d[i-1, j-1]`. |
| `Matrices.Matrix.Adopt` | Matrix.cs:52-57 | The matrix is valid, its dimensions are the array's lengths, and its `data` is the array itself. |
| `Matrices.Matrix.Data` | Matrix.cs:65-69 | Returns the backing array itself, whose lengths are the dimensions. |
| `Matrices.Matrix.NumRows` | Matrix.cs:71-75 | At least 1, and the number of rows of the contents. |
| `Matrices.Matrix.NumColumns` | Matrix.cs:77-81 | At least 1, and the number of columns of the contents. |
| `Matrices.Matrix.Get` | Matrix.cs:89-92 | For 1 ≤ i ≤ rows and 1 ≤ j ≤ columns, the indexer reads entry (i - 1, j - 1) of the contents. |
| `Matrices.Matrix.Set` | Matrix.cs:93-95 | The write leaves the matrix valid with the same shape. The contents become the old contents with entry (i - 1, j - 1) replaced by x. Reading (p, q) through the indexer afterwards gives x at (i, j) and the old value everywhere else. |
| `Matrices.Matrix.Equals` | Matrix.cs:115-123 | True iff the argument is non-null, has the same rows and columns, and holds the same grid. |
| `Matrices.Matrix.EqualsOperator` | Matrix.cs:126-135 | Identical references (including two nulls) are equal. Exactly one null is unequal. Two matrices are equal iff their shapes and contents agree. |
| `Matrices.Matrix.NotEqualsOperator` | Matrix.cs:138-140 | The exact negation of `EqualsOperator` in every case. |
| `Matrices.Matrix.AreEqual2DArrays` | Matrix.cs:142-154 | True iff both lengths agree and every entry agrees. |
| `Matrices.Matrix.Add` | Matrix.cs:162-176 | A null operand gives `NullOperand`, and any row or column mismatch gives `DimensionMismatch`. Otherwise the result is a fresh valid matrix holding `Plus` of the operands. |
| `Matrices.Matrix.FillSum` | Matrix.cs:170-174 | After the loops, every output entry is the sum of the operands' entries at the same position. |
| `Matrices.Matrix.MultiplyByScalar` | Matrix.cs:185-196 | A null matrix gives `NullOperand`. Otherwise the result is a fresh valid matrix holding `Scaled` of a by c. |
| `Matrices.Matrix.FillScaled` | Matrix.cs:190-194 | After the loops, every output entry is the operand's entry times c. |
| `Matrices.Matrix.ScalarMultiply` | Matrix.cs:199-201 | `c * a` fails exactly as `a * c` does, and otherwise holds the same grid. |
| `Matrices.Matrix.Multiply` | Matrix.cs:217-235 | A null operand gives `NullOperand`, and a.columns ≠ b.rows gives `DimensionMismatch`. Otherwise the result is a fresh valid matrix with a.rows × b.columns holding `Product` of the operands. |
| `Matrices.Matrix.FillProduct` | Matrix.cs:225-233 | After the three loops, entry (p, q) is `Dot` of row p and column q, over all of the shared dimension. |
| `Matrices.Matrix.Negate` | Matrix.cs:243-245 | `-a` fails on null and otherwise holds a scaled by -1. |
| `Matrices.Matrix.Subtract` | Matrix.cs:249-251 | `a - b` fails with `NullOperand` when either operand is null, and with `DimensionMismatch` on a shape mismatch. Otherwise it holds a plus b scaled by -1. |
| `Matrices.Matrix.HadamardProduct` | Matrix.cs:256-270 | A null operand gives `NullOperand`, and any row or column mismatch gives `DimensionMismatch`. Otherwise the result is a fresh valid matrix holding `Hadamard` of the operands. |
| `Matrices.Matrix.FillHadamard` | Matrix.cs:264-268 | After the loops, every output entry is the product of the operands' entries at the same position. |
| `Matrices.Matrix.Transpose` | Matrix.cs:275-286 | A null matrix gives `NullOperand`. Otherwise the result is a fresh valid columns-by-rows matrix holding `Transposed` of a. |
| `Matrices.Matrix.FillTransposed` | Matrix.cs:280-284 | After the loops over the output's shape, entry (p, q) is the operand's entry (q, p). |
| `Grids.Constant` | Matrix.cs:25-29 | An m-by-n grid of one value. |
| `Grids.Zero` | Matrix.cs:40-44 | The zero-filled grid: m-by-n, and every entry is 0. |
| `Grids.Dot` | Matrix.cs:227-231 | The running sum of the product loop: `Dot(g, h, i, j, n)` is `g[i][0]*h[0][j] + … + g[i][n-1]*h[n-1][j]`, added in ascending k from 0.0. |
| `Grids.Plus` | Matrix.cs:171-173 | The sum has its operands' shape. |
| `Grids.Scaled` | Matrix.cs:191-193 | The scaled grid has the operand's shape. |
| `Grids.Hadamard` | Matrix.cs:265-267 | The entry-wise product has its operands' shape. |
| `Grids.Difference` | Matrix.cs:247-248 | The entry-wise difference has its operands' shape. |
| `Grids.Transposed` | Matrix.cs:272-274 | The transpose of an m-by-n grid is an n-by-m grid. |
| `Grids.Product` | Matrix.cs:214-216 | The product of an m-by-n and an n-by-p grid is an m-by-p grid. |
| `Grids.Updated` | Matrix.cs:93-95 | The indexer write on grids: the shape is kept, entry (i, j) becomes x, and every other entry stays as it was. |
| `Grids.PlusZero` | Test/Matrix_Test.cs:212-226 | Adding the zero grid of the same shape gives the grid back. |
| `Grids.PlusCommutes` | Matrix.cs:162-176 | The sum of two grids does not depend on their order. |
| `Grids.PlusAssociates` | Matrix.cs:162-176 | Sums of three grids do not depend on grouping. |
| `Grids.ScaledByZero` | Test/Matrix_Test.cs:268-275 | `0 * a` is the zero grid of a's shape. |
| `Grids.ScaledDistributes` | Matrix.cs:185-196 | Scaling by c + d is the sum of scaling by c and by d. |
| `Grids.PlusNegatedIsDifference` | Matrix.cs:247-251 | a + (-1 · b) is the entry-wise difference a - b, the meaning the comment on `a - b` gives it. |
| `Grids.DifferenceWithItself` | Matrix.cs:247-251 | a - a is the zero grid of a's shape. |
| `Grids.HadamardByOnes` | Test/Matrix_Test.cs:400-408 | The entry-wise product with the all-ones grid gives the grid back. |
| `Grids.HadamardByZero` | Test/Matrix_Test.cs:383-397 | The entry-wise product with the zero grid is the zero grid. |
| `Grids.HadamardCommutes` | Matrix.cs:253-255 | The entry-wise product does not depend on operand order. |
| `Grids.TransposedTwice` | Test/Matrix_Test.cs:477-483 | Transposing twice gives the grid back. |
| `Grids.TransposedSquareZero` | Test/Matrix_Test.cs:439-443 | The transpose of a square zero grid is itself. |
| `Grids.DotWithZeroColumn` | Matrix.cs:227-230 | Accumulating the dot product against a column of zeros gives 0 at every length. |
| `Grids.ProductByZero` | Matrix.cs:214-235 | a times a zero grid of the right shape is the zero grid of the product's shape. |
| `Grids.DotTransposed` | Matrix.cs:227-230 | The ascending accumulation of row i of g times column j of h equals that of row j of hᵀ times column i of gᵀ. |
| `Grids.ProductTransposed` | Matrix.cs:272-286 | (g · h)ᵀ = hᵀ · gᵀ. |
| `TestCases.AddSingleRow` | Test/Matrix_Test.cs:229-237 | [3 8 4.5] + [1 1 1] = [4 9 5.5]. |
| `TestCases.AddThreeByFour` | Test/Matrix_Test.cs:240-254 | The suite's 3-by-4 sum. |
| `TestCases.ScaleByTwo` | Test/Matrix_Test.cs:278-288 | 2 times the 3-by-3 matrix 1 .. 9. |
| `TestCases.ScaleByMinusTwo` | Test/Matrix_Test.cs:291-301 | -2 times the suite's 3-by-4 matrix. |
| `TestCases.ProductFourByThree` | Test/Matrix_Test.cs:329-345 | The suite's 4-by-3 times 3-by-4 product. |
| `TestCases.ProductRowByColumn` | Test/Matrix_Test.cs:348-360 | [1 2 3 4 5] times its column is [55]. |
| `TestCases.HadamardSingleRow` | Test/Matrix_Test.cs:400-408 | [3 8 4.5] ∘ [1 1 1] = [3 8 4.5]. |
| `TestCases.HadamardThreeByFour` | Test/Matrix_Test.cs:411-425 | The suite's 3-by-4 entry-wise product. |
| `TestCases.TransposeRow` | Test/Matrix_Test.cs:454-462 | [1 2 3] transposes to the column 1, 2, 3. |
| `TestCases.TransposeThreeByTwo` | Test/Matrix_Test.cs:465-474 | The suite's 3-by-2 matrix transposes to the 2-by-3 one. |
| `TestCases.SharedArrayCase` | Test/Matrix_Test.cs:116-121 | Two matrices built over the same array are `==`. After a write through one of them, the other reads the written value. |

## Left out

- Single-precision floating point: rounding in `+`, `*` and the running
  `sum`, NaN (which makes C# equality irreflexive), and -0/+0. Entries are
  exact reals, so the laws hold over exact arithmetic only. The suite's `6.8F`
  is the decimal 6.8.
- Exception types and messages (`ArgumentException` against
  `NullReferenceException`, and the message strings) are reduced to the four
  error tags.
- `Equals(object)` (Matrix.cs:100-112) is left out. It adds only the runtime
  `as Matrix` type test in front of `Equals(Matrix)`. The missing
  `GetHashCode` override is left out too.
- The operator overloads `+` (Matrix.cs:179-181) and the three `*` overloads
  (Matrix.cs:204-212, 238-240) are one-line delegations to `Add`,
  `MultiplyByScalar`, `ScalarMultiply` and `Multiply`. They have no members of
  their own. Unary and binary `-`, `==` and `!=` carry logic of their own and
  are modelled as `Negate`, `Subtract`, `EqualsOperator` and
  `NotEqualsOperator`.
- An out-of-range index makes the C# indexer throw at run time. Here the index
  bounds are preconditions of `Get` and `Set`.
- The Fill methods read and write the arrays at `[i - 1, j - 1]` directly
  instead of calling the indexer. This is the indexer's own body, with the
  same 1-based loop counters.
- The C# `int` dimensions are unbounded integers here. No dimension the
  source can allocate comes near the 32-bit limit.
- The test harness (MSTest attributes and assertions) is not modelled.
  Its worked cases are stated as lemmas in `TestCases`. The equality, null
  and error-path tests follow directly from the contracts of `Square`,
  `Rectangular`, `FromArray`, `EqualsOperator` and the arithmetic methods.
