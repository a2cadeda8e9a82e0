/** The matrix class: a rectangular grid with a fixed shape, 1-based entry access,
    structural equality with reference-style null rules, and arithmetic operations
    that each allocate a new matrix and fill it entry by entry. Entries are exact
    reals; the value each matrix holds is given by `Contents()` in terms of the
    grids of module `Grids`. */
module Matrices {
  import opened Grids

  /** The ways an operation can fail. */
  datatype Error =
    | InvalidDimension   // a requested or supplied dimension is below 1
    | NullInput          // the array to build from is null
    | NullOperand        // an operand of an arithmetic operation is null
    | DimensionMismatch  // the operands' shapes do not fit the operation

  datatype Result<T> = Ok(value: T) | Err(error: Error)

  /** The grid held in a two-dimensional array, row i being d[i, 0 ..]. */
  ghost function GridOf(d: array2<real>): (g: Grid)
    reads d
    ensures Shaped(g, d.Length0, d.Length1)
    ensures forall i, j :: 0 <= i < d.Length0 && 0 <= j < d.Length1 ==> g[i][j] == d[i, j]
  {
    seq(d.Length0, i requires 0 <= i < d.Length0 reads d =>
      seq(d.Length1, j requires 0 <= j < d.Length1 reads d => d[i, j]))
  }

  /** An array whose entries agree with a grid of its shape holds that grid. */
  lemma GridOfAgrees(d: array2<real>, g: Grid)
    requires d.Length0 >= 1 && d.Length1 >= 1 && Shaped(g, d.Length0, d.Length1)
    requires forall i, j :: 0 <= i < d.Length0 && 0 <= j < d.Length1 ==> d[i, j] == g[i][j]
    ensures GridOf(d) == g
  {
    Extensionality(GridOf(d), g);
  }

  class Matrix {
    var data: array2<real>
    var numRows: int
    var numColumns: int

    /** The shape is at least 1 by 1 and is the shape of the backing array. */
    ghost predicate Valid()
      reads this
    {
      1 <= numRows && 1 <= numColumns && data.Length0 == numRows && data.Length1 == numColumns
    }

    /** The value this matrix holds. */
    ghost function Contents(): (g: Grid)
      reads this, data
      requires Valid()
      ensures IsMatrix(g) && Rows(g) == numRows && Cols(g) == numColumns
    {
      GridOf(data)
    }

    // -------------------------------------------------------------------------
    // Construction
    // -------------------------------------------------------------------------

    /** An m-by-n matrix of zeros over a new array. */
    constructor Zeros(m: int, n: int)
      requires 1 <= m && 1 <= n
      ensures Valid() && fresh(data)
      ensures numRows == m && numColumns == n
      ensures Contents() == Zero(m, n)
    {
      var d := new real[m, n];
      var i := 0;
      while i < m
        invariant 0 <= i <= m
        invariant forall p, q :: 0 <= p < i && 0 <= q < n ==> d[p, q] == 0.0
      {
        var j := 0;
        while j < n
          invariant 0 <= j <= n
          invariant forall p, q :: 0 <= p < i && 0 <= q < n ==> d[p, q] == 0.0
          invariant forall q :: 0 <= q < j ==> d[i, q] == 0.0
        {
          d[i, j] := 0.0;
          j := j + 1;
        }
        i := i + 1;
      }
      GridOfAgrees(d, Zero(m, n));
      data := d;
      numRows := m;
      numColumns := n;
    }

    /** A matrix over the caller's array itself: the array is shared, not copied. */
    constructor Adopt(d: array2<real>)
      requires d.Length0 >= 1 && d.Length1 >= 1
      ensures Valid() && data == d
      ensures numRows == d.Length0 && numColumns == d.Length1
    {
      data := d;
      numRows := d.Length0;
      numColumns := d.Length1;
    }

    /** The n-by-n zero matrix; fails when n < 1. */
    static method Square(n: int) returns (r: Result<Matrix>)
      ensures n < 1 ==> r == Err(InvalidDimension)
      ensures n >= 1 ==> r.Ok? && fresh(r.value) && fresh(r.value.data) && r.value.Valid()
      ensures n >= 1 ==> r.value.numRows == n && r.value.numColumns == n && r.value.Contents() == Zero(n, n)
    {
      if n < 1 {
        return Err(InvalidDimension);
      }
      var m := new Matrix.Zeros(n, n);
      return Ok(m);
    }

    /** The m-by-n zero matrix; fails when m < 1 or n < 1. */
    static method Rectangular(m: int, n: int) returns (r: Result<Matrix>)
      ensures m < 1 || n < 1 ==> r == Err(InvalidDimension)
      ensures m >= 1 && n >= 1 ==> r.Ok? && fresh(r.value) && fresh(r.value.data) && r.value.Valid()
      ensures m >= 1 && n >= 1 ==> r.value.numRows == m && r.value.numColumns == n && r.value.Contents() == Zero(m, n)
    {
      if m < 1 || n < 1 {
        return Err(InvalidDimension);
      }
      var x := new Matrix.Zeros(m, n);
      return Ok(x);
    }

    /** A matrix over an existing array; fails on a null array and on an array
        with no rows or no columns. The array is adopted, not copied, so later
        writes through either the array or the matrix are seen by both. */
    static method FromArray(d: array2?<real>) returns (r: Result<Matrix>)
      ensures d == null ==> r == Err(NullInput)
      ensures d != null && (d.Length0 < 1 || d.Length1 < 1) ==> r == Err(InvalidDimension)
      ensures d != null && d.Length0 >= 1 && d.Length1 >= 1 ==>
        r.Ok? && fresh(r.value) && r.value.Valid() && r.value.data == d &&
        r.value.numRows == d.Length0 && r.value.numColumns == d.Length1
      ensures r.Ok? ==> forall i, j :: 1 <= i <= d.Length0 && 1 <= j <= d.Length1 ==>
        r.value.Get(i, j) == d[i - 1, j - 1]
    {
      if d == null {
        return Err(NullInput);
      }
      if d.Length0 < 1 || d.Length1 < 1 {
        return Err(InvalidDimension);
      }
      var x := new Matrix.Adopt(d);
      return Ok(x);
    }

    // -------------------------------------------------------------------------
    // Accessors
    // -------------------------------------------------------------------------

    /** The backing array itself (not a copy). */
    function Data(): (d: array2<real>)
      reads this
      requires Valid()
      ensures d == data && d.Length0 == numRows && d.Length1 == numColumns
    {
      data
    }

    function NumRows(): (n: int)
      reads this
      requires Valid()
      ensures n >= 1 && n == Rows(Contents())
    {
      numRows
    }

    function NumColumns(): (n: int)
      reads this
      requires Valid()
      ensures n >= 1 && n == Cols(Contents())
    {
      numColumns
    }

    /** The entry in row i, column j, counting from 1. */
    function Get(i: int, j: int): (x: real)
      reads this, data
      requires Valid() && 1 <= i <= numRows && 1 <= j <= numColumns
      ensures x == Contents()[i - 1][j - 1]
    {
      data[i - 1, j - 1]
    }

    /** Writes the entry in row i, column j, counting from 1. The shape and every
        other entry stay as they were. Any other matrix over the same array sees
        the write. */
    method Set(i: int, j: int, x: real)
      requires Valid() && 1 <= i <= numRows && 1 <= j <= numColumns
      modifies data
      ensures Valid()
      ensures Contents() == Updated(old(Contents()), i - 1, j - 1, x)
      ensures forall p, q :: 1 <= p <= numRows && 1 <= q <= numColumns ==>
        Get(p, q) == if p == i && q == j then x else old(Get(p, q))
    {
      data[i - 1, j - 1] := x;
      GridOfAgrees(data, Updated(old(Contents()), i - 1, j - 1, x));
    }

    // -------------------------------------------------------------------------
    // Equality
    // -------------------------------------------------------------------------

    /** Equal to a non-null matrix of the same shape whose entries all agree. */
    method Equals(m: Matrix?) returns (r: bool)
      requires Valid() && (m != null ==> m.Valid())
      ensures r <==> m != null && numRows == m.numRows && numColumns == m.numColumns &&
                     Contents() == m.Contents()
    {
      if m == null {
        return false;
      }
      if NumRows() != m.NumRows() || NumColumns() != m.NumColumns() {
        return false;
      }
      r := AreEqual2DArrays(Data(), m.Data());
      if r {
        GridOfAgrees(m.data, Contents());
      }
    }

    /** The `==` operator: two nulls are equal, a null and a matrix are not, and
        two matrices are equal as `Equals` says. */
    static method EqualsOperator(a: Matrix?, b: Matrix?) returns (r: bool)
      requires a != null ==> a.Valid()
      requires b != null ==> b.Valid()
      ensures a == b ==> r
      ensures (a == null) != (b == null) ==> !r
      ensures a != null && b != null ==>
        (r <==> a.numRows == b.numRows && a.numColumns == b.numColumns && a.Contents() == b.Contents())
    {
      if a == b {
        return true;
      }
      if a == null || b == null {
        return false;
      }
      r := a.Equals(b);
    }

    /** The `!=` operator: the negation of `==`. */
    static method NotEqualsOperator(a: Matrix?, b: Matrix?) returns (r: bool)
      requires a != null ==> a.Valid()
      requires b != null ==> b.Valid()
      ensures a == null && b == null ==> !r
      ensures (a == null) != (b == null) ==> r
      ensures a != null && b != null ==>
        (r <==> a.numRows != b.numRows || a.numColumns != b.numColumns || a.Contents() != b.Contents())
    {
      var eq := EqualsOperator(a, b);
      r := !eq;
    }

    /** Same lengths and the same entry at every position, checked row by row;
        stops at the first difference. */
    static method AreEqual2DArrays(a: array2<real>, b: array2<real>) returns (r: bool)
      ensures r <==> a.Length0 == b.Length0 && a.Length1 == b.Length1 &&
                     forall i, j :: 0 <= i < a.Length0 && 0 <= j < a.Length1 ==> a[i, j] == b[i, j]
    {
      if a.Length0 != b.Length0 || a.Length1 != b.Length1 {
        return false;
      }
      var i := 0;
      while i < a.Length0
        invariant 0 <= i <= a.Length0
        invariant forall p, q :: 0 <= p < i && 0 <= q < a.Length1 ==> a[p, q] == b[p, q]
      {
        var j := 0;
        while j < a.Length1
          invariant 0 <= j <= a.Length1
          invariant forall q :: 0 <= q < j ==> a[i, q] == b[i, q]
        {
          if a[i, j] != b[i, j] {
            return false;
          }
          j := j + 1;
        }
        i := i + 1;
      }
      return true;
    }

    // -------------------------------------------------------------------------
    // Arithmetic
    //
    // Each operation checks its operands, allocates a zero matrix of the result's
    // shape and then writes every entry, row by row, with 1-based loop counters.
    // The writing loops are the Fill methods below; they work on the backing
    // arrays directly, reading and writing entry (i, j) at [i - 1, j - 1] exactly
    // as the indexer does.
    // -------------------------------------------------------------------------

    /** The entry-wise sum (also the `+` operator). Fails on a null operand and on
        any difference in shape. */
    static method Add(a: Matrix?, b: Matrix?) returns (r: Result<Matrix>)
      requires a != null ==> a.Valid()
      requires b != null ==> b.Valid()
      ensures a == null || b == null ==> r == Err(NullOperand)
      ensures a != null && b != null && (a.numRows != b.numRows || a.numColumns != b.numColumns) ==>
        r == Err(DimensionMismatch)
      ensures a != null && b != null && a.numRows == b.numRows && a.numColumns == b.numColumns ==>
        r.Ok? && fresh(r.value) && fresh(r.value.data) && r.value.Valid() &&
        r.value.Contents() == Plus(a.Contents(), b.Contents())
    {
      if a == null || b == null {
        return Err(NullOperand);
      }
      if a.NumRows() != b.NumRows() || a.NumColumns() != b.NumColumns() {
        return Err(DimensionMismatch);
      }
      var result := new Matrix.Zeros(a.NumRows(), a.NumColumns());
      FillSum(result.data, a.data, b.data);
      GridOfAgrees(result.data, Plus(a.Contents(), b.Contents()));
      return Ok(result);
    }

    /** The loop of `Add`: out[i, j] := x[i, j] + y[i, j] at every position. */
    static method FillSum(out: array2<real>, x: array2<real>, y: array2<real>)
      requires out != x && out != y
      requires x.Length0 == y.Length0 == out.Length0 && x.Length1 == y.Length1 == out.Length1
      modifies out
      ensures forall p, q :: 0 <= p < out.Length0 && 0 <= q < out.Length1 ==> out[p, q] == x[p, q] + y[p, q]
    {
      var i := 1;
      while i <= out.Length0
        invariant 1 <= i <= out.Length0 + 1
        invariant forall p, q :: 0 <= p < i - 1 && 0 <= q < out.Length1 ==> out[p, q] == x[p, q] + y[p, q]
      {
        var j := 1;
        while j <= out.Length1
          invariant 1 <= j <= out.Length1 + 1
          invariant forall p, q :: 0 <= p < out.Length0 && 0 <= q < out.Length1 && (p < i - 1 || (p == i - 1 && q < j - 1)) ==>
            out[p, q] == x[p, q] + y[p, q]
        {
          out[i - 1, j - 1] := x[i - 1, j - 1] + y[i - 1, j - 1];
          j := j + 1;
        }
        i := i + 1;
      }
    }

    /** Every entry multiplied by c (also the `a * c` operator). Fails on a null matrix. */
    static method MultiplyByScalar(a: Matrix?, c: real) returns (r: Result<Matrix>)
      requires a != null ==> a.Valid()
      ensures a == null ==> r == Err(NullOperand)
      ensures a != null ==>
        r.Ok? && fresh(r.value) && fresh(r.value.data) && r.value.Valid() &&
        r.value.Contents() == Scaled(a.Contents(), c)
    {
      if a == null {
        return Err(NullOperand);
      }
      var result := new Matrix.Zeros(a.NumRows(), a.NumColumns());
      FillScaled(result.data, a.data, c);
      GridOfAgrees(result.data, Scaled(a.Contents(), c));
      return Ok(result);
    }

    /** The loop of `MultiplyByScalar`: out[i, j] := x[i, j] * c at every position. */
    static method FillScaled(out: array2<real>, x: array2<real>, c: real)
      requires out != x
      requires x.Length0 == out.Length0 && x.Length1 == out.Length1
      modifies out
      ensures forall p, q :: 0 <= p < out.Length0 && 0 <= q < out.Length1 ==> out[p, q] == x[p, q] * c
    {
      var i := 1;
      while i <= out.Length0
        invariant 1 <= i <= out.Length0 + 1
        invariant forall p, q :: 0 <= p < i - 1 && 0 <= q < out.Length1 ==> out[p, q] == x[p, q] * c
      {
        var j := 1;
        while j <= out.Length1
          invariant 1 <= j <= out.Length1 + 1
          invariant forall p, q :: 0 <= p < out.Length0 && 0 <= q < out.Length1 && (p < i - 1 || (p == i - 1 && q < j - 1)) ==>
            out[p, q] == x[p, q] * c
        {
          out[i - 1, j - 1] := x[i - 1, j - 1] * c;
          j := j + 1;
        }
        i := i + 1;
      }
    }

    /** Scalar multiplication with the scalar first (also the `c * a` operator):
        the same as with the scalar second. */
    static method ScalarMultiply(c: real, a: Matrix?) returns (r: Result<Matrix>)
      requires a != null ==> a.Valid()
      ensures a == null ==> r == Err(NullOperand)
      ensures a != null ==>
        r.Ok? && fresh(r.value) && fresh(r.value.data) && r.value.Valid() &&
        r.value.Contents() == Scaled(a.Contents(), c)
    {
      r := MultiplyByScalar(a, c);
    }

    /** The matrix product (also the `a * b` operator). Fails on a null operand and
        when a's column count differs from b's row count; otherwise the result has
        a's row count and b's column count. */
    static method Multiply(a: Matrix?, b: Matrix?) returns (r: Result<Matrix>)
      requires a != null ==> a.Valid()
      requires b != null ==> b.Valid()
      ensures a == null || b == null ==> r == Err(NullOperand)
      ensures a != null && b != null && a.numColumns != b.numRows ==> r == Err(DimensionMismatch)
      ensures a != null && b != null && a.numColumns == b.numRows ==>
        r.Ok? && fresh(r.value) && fresh(r.value.data) && r.value.Valid() &&
        r.value.numRows == a.numRows && r.value.numColumns == b.numColumns &&
        r.value.Contents() == Product(a.Contents(), b.Contents())
    {
      if a == null || b == null {
        return Err(NullOperand);
      }
      if a.NumColumns() != b.NumRows() {
        return Err(DimensionMismatch);
      }
      var output := new Matrix.Zeros(a.NumRows(), b.NumColumns());
      FillProduct(output.data, a.data, b.data, a.Contents(), b.Contents());
      GridOfAgrees(output.data, Product(a.Contents(), b.Contents()));
      return Ok(output);
    }

    /** The loops of `Multiply`: out[i, j] is the sum over k of x[i, k] * y[k, j],
        accumulated from k = 1 upwards; gx and gy are the grids x and y hold. */
    static method FillProduct(out: array2<real>, x: array2<real>, y: array2<real>, ghost gx: Grid, ghost gy: Grid)
      requires out != x && out != y
      requires x.Length1 == y.Length0 && out.Length0 == x.Length0 && out.Length1 == y.Length1
      requires IsMatrix(gx) && Rows(gx) == x.Length0 && Cols(gx) == x.Length1
      requires IsMatrix(gy) && Rows(gy) == y.Length0 && Cols(gy) == y.Length1
      requires forall p, q :: 0 <= p < x.Length0 && 0 <= q < x.Length1 ==> x[p, q] == gx[p][q]
      requires forall p, q :: 0 <= p < y.Length0 && 0 <= q < y.Length1 ==> y[p, q] == gy[p][q]
      modifies out
      ensures forall p, q :: 0 <= p < out.Length0 && 0 <= q < out.Length1 ==> out[p, q] == Dot(gx, gy, p, q, x.Length1)
    {
      var i := 1;
      while i <= out.Length0
        invariant 1 <= i <= out.Length0 + 1
        invariant forall p, q :: 0 <= p < i - 1 && 0 <= q < out.Length1 ==> out[p, q] == Dot(gx, gy, p, q, x.Length1)
      {
        var j := 1;
        while j <= out.Length1
          invariant 1 <= j <= out.Length1 + 1
          invariant forall p, q :: 0 <= p < out.Length0 && 0 <= q < out.Length1 && (p < i - 1 || (p == i - 1 && q < j - 1)) ==>
            out[p, q] == Dot(gx, gy, p, q, x.Length1)
        {
          var sum := 0.0;
          var k := 1;
          while k <= x.Length1
            invariant 1 <= k <= x.Length1 + 1
            invariant sum == Dot(gx, gy, i - 1, j - 1, k - 1)
          {
            sum := sum + x[i - 1, k - 1] * y[k - 1, j - 1];
            k := k + 1;
          }
          out[i - 1, j - 1] := sum;
          j := j + 1;
        }
        i := i + 1;
      }
    }

    /** The unary `-` operator: multiplication by the scalar -1. */
    static method Negate(a: Matrix?) returns (r: Result<Matrix>)
      requires a != null ==> a.Valid()
      ensures a == null ==> r == Err(NullOperand)
      ensures a != null ==>
        r.Ok? && fresh(r.value) && fresh(r.value.data) && r.value.Valid() &&
        r.value.Contents() == Scaled(a.Contents(), -1.0)
    {
      r := ScalarMultiply(-1.0, a);
    }

    /** The binary `-` operator: a plus the negation of b. The negation is taken
        first, so a null b fails there; a null a or a shape mismatch fails in Add. */
    static method Subtract(a: Matrix?, b: Matrix?) returns (r: Result<Matrix>)
      requires a != null ==> a.Valid()
      requires b != null ==> b.Valid()
      ensures a == null || b == null ==> r == Err(NullOperand)
      ensures a != null && b != null && (a.numRows != b.numRows || a.numColumns != b.numColumns) ==>
        r == Err(DimensionMismatch)
      ensures a != null && b != null && a.numRows == b.numRows && a.numColumns == b.numColumns ==>
        r.Ok? && fresh(r.value) && fresh(r.value.data) && r.value.Valid() &&
        r.value.Contents() == Plus(a.Contents(), Scaled(b.Contents(), -1.0))
    {
      var minusB := Negate(b);
      if minusB.Err? {
        return minusB;
      }
      r := Add(a, minusB.value);
    }

    /** The entry-wise product. Fails on a null operand and on any difference in shape. */
    static method HadamardProduct(a: Matrix?, b: Matrix?) returns (r: Result<Matrix>)
      requires a != null ==> a.Valid()
      requires b != null ==> b.Valid()
      ensures a == null || b == null ==> r == Err(NullOperand)
      ensures a != null && b != null && (a.numRows != b.numRows || a.numColumns != b.numColumns) ==>
        r == Err(DimensionMismatch)
      ensures a != null && b != null && a.numRows == b.numRows && a.numColumns == b.numColumns ==>
        r.Ok? && fresh(r.value) && fresh(r.value.data) && r.value.Valid() &&
        r.value.Contents() == Hadamard(a.Contents(), b.Contents())
    {
      if a == null || b == null {
        return Err(NullOperand);
      }
      if a.NumColumns() != b.NumColumns() || a.NumRows() != b.NumRows() {
        return Err(DimensionMismatch);
      }
      var output := new Matrix.Zeros(a.NumRows(), a.NumColumns());
      FillHadamard(output.data, a.data, b.data);
      GridOfAgrees(output.data, Hadamard(a.Contents(), b.Contents()));
      return Ok(output);
    }

    /** The loop of `HadamardProduct`: out[i, j] := x[i, j] * y[i, j] at every position. */
    static method FillHadamard(out: array2<real>, x: array2<real>, y: array2<real>)
      requires out != x && out != y
      requires x.Length0 == y.Length0 == out.Length0 && x.Length1 == y.Length1 == out.Length1
      modifies out
      ensures forall p, q :: 0 <= p < out.Length0 && 0 <= q < out.Length1 ==> out[p, q] == x[p, q] * y[p, q]
    {
      var i := 1;
      while i <= out.Length0
        invariant 1 <= i <= out.Length0 + 1
        invariant forall p, q :: 0 <= p < i - 1 && 0 <= q < out.Length1 ==> out[p, q] == x[p, q] * y[p, q]
      {
        var j := 1;
        while j <= out.Length1
          invariant 1 <= j <= out.Length1 + 1
          invariant forall p, q :: 0 <= p < out.Length0 && 0 <= q < out.Length1 && (p < i - 1 || (p == i - 1 && q < j - 1)) ==>
            out[p, q] == x[p, q] * y[p, q]
        {
          out[i - 1, j - 1] := x[i - 1, j - 1] * y[i - 1, j - 1];
          j := j + 1;
        }
        i := i + 1;
      }
    }

    /** The transpose: a NumColumns-by-NumRows matrix whose entry (i, j) is a's
        entry (j, i). Fails on a null matrix. */
    static method Transpose(a: Matrix?) returns (r: Result<Matrix>)
      requires a != null ==> a.Valid()
      ensures a == null ==> r == Err(NullOperand)
      ensures a != null ==>
        r.Ok? && fresh(r.value) && fresh(r.value.data) && r.value.Valid() &&
        r.value.numRows == a.numColumns && r.value.numColumns == a.numRows &&
        r.value.Contents() == Transposed(a.Contents())
    {
      if a == null {
        return Err(NullOperand);
      }
      var output := new Matrix.Zeros(a.NumColumns(), a.NumRows());
      FillTransposed(output.data, a.data);
      GridOfAgrees(output.data, Transposed(a.Contents()));
      return Ok(output);
    }

    /** The loop of `Transpose`, running over the output's shape:
        out[i, j] := x[j, i] at every position. */
    static method FillTransposed(out: array2<real>, x: array2<real>)
      requires out != x
      requires out.Length0 == x.Length1 && out.Length1 == x.Length0
      modifies out
      ensures forall p, q :: 0 <= p < out.Length0 && 0 <= q < out.Length1 ==> out[p, q] == x[q, p]
    {
      var i := 1;
      while i <= out.Length0
        invariant 1 <= i <= out.Length0 + 1
        invariant forall p, q :: 0 <= p < i - 1 && 0 <= q < out.Length1 ==> out[p, q] == x[q, p]
      {
        var j := 1;
        while j <= out.Length1
          invariant 1 <= j <= out.Length1 + 1
          invariant forall p, q :: 0 <= p < out.Length0 && 0 <= q < out.Length1 && (p < i - 1 || (p == i - 1 && q < j - 1)) ==>
            out[p, q] == x[q, p]
        {
          out[i - 1, j - 1] := x[j - 1, i - 1];
          j := j + 1;
        }
        i := i + 1;
      }
    }
  }
}
