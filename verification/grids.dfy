/** The value a matrix holds: a rectangular grid of exact real entries, stored row
    by row and indexed from 0. Every operation of the matrix class is specified by
    one of the functions here, and the algebraic laws the class relies on are
    proved about these functions. */
module Grids {

  type Grid = seq<seq<real>>

  function Rows(g: Grid): nat { |g| }

  function Cols(g: Grid): nat { if |g| == 0 then 0 else |g[0]| }

  /** g has exactly m rows, each of exactly n entries. */
  predicate Shaped(g: Grid, m: int, n: int) {
    |g| == m && forall i :: 0 <= i < |g| ==> |g[i]| == n
  }

  /** A grid a matrix can hold: at least one row and one column, never jagged. */
  predicate IsMatrix(g: Grid) {
    Rows(g) >= 1 && Cols(g) >= 1 && Shaped(g, Rows(g), Cols(g))
  }

  /** g is a matrix and h has its shape. */
  predicate SameShape(g: Grid, h: Grid) {
    IsMatrix(g) && Shaped(h, Rows(g), Cols(g))
  }

  // ---------------------------------------------------------------------------
  // Operations
  // ---------------------------------------------------------------------------

  /** The m-by-n grid whose every entry is x. */
  function Constant(m: nat, n: nat, x: real): (r: Grid)
    ensures Shaped(r, m, n) && Rows(r) == m
    ensures m >= 1 ==> Cols(r) == n
  {
    seq(m, _ => seq(n, _ => x))
  }

  /** The m-by-n grid of zeros. */
  function Zero(m: nat, n: nat): (r: Grid)
    ensures Shaped(r, m, n)
    ensures forall i, j :: 0 <= i < m && 0 <= j < n ==> r[i][j] == 0.0
  {
    Constant(m, n, 0.0)
  }

  function Ones(m: nat, n: nat): Grid { Constant(m, n, 1.0) }

  /** g with the entry in row i, column j replaced by x: the shape is kept, that
      entry becomes x, and every other entry stays as it was. */
  function Updated(g: Grid, i: nat, j: nat, x: real): (r: Grid)
    requires IsMatrix(g) && i < Rows(g) && j < Cols(g)
    ensures SameShape(g, r) && r[i][j] == x
    ensures forall p, q :: 0 <= p < Rows(g) && 0 <= q < Cols(g) && (p != i || q != j) ==> r[p][q] == g[p][q]
  {
    g[i := g[i][j := x]]
  }

  /** Entry-wise sum. */
  function Plus(g: Grid, h: Grid): (r: Grid)
    requires SameShape(g, h)
    ensures SameShape(g, r) && SameShape(r, g)
  {
    seq(Rows(g), i requires 0 <= i < Rows(g) =>
      seq(Cols(g), j requires 0 <= j < Cols(g) => g[i][j] + h[i][j]))
  }

  /** Every entry multiplied by the scalar c. */
  function Scaled(g: Grid, c: real): (r: Grid)
    requires IsMatrix(g)
    ensures SameShape(g, r) && SameShape(r, g)
  {
    seq(Rows(g), i requires 0 <= i < Rows(g) =>
      seq(Cols(g), j requires 0 <= j < Cols(g) => g[i][j] * c))
  }

  /** Entry-wise product. */
  function Hadamard(g: Grid, h: Grid): (r: Grid)
    requires SameShape(g, h)
    ensures SameShape(g, r) && SameShape(r, g)
  {
    seq(Rows(g), i requires 0 <= i < Rows(g) =>
      seq(Cols(g), j requires 0 <= j < Cols(g) => g[i][j] * h[i][j]))
  }

  /** Entry-wise difference: the reference definition of subtraction. */
  function Difference(g: Grid, h: Grid): (r: Grid)
    requires SameShape(g, h)
    ensures SameShape(g, r)
  {
    seq(Rows(g), i requires 0 <= i < Rows(g) =>
      seq(Cols(g), j requires 0 <= j < Cols(g) => g[i][j] - h[i][j]))
  }

  /** Row i of the result is column i of g. */
  function Transposed(g: Grid): (r: Grid)
    requires IsMatrix(g)
    ensures IsMatrix(r) && Rows(r) == Cols(g) && Cols(r) == Rows(g)
  {
    seq(Cols(g), i requires 0 <= i < Cols(g) =>
      seq(Rows(g), j requires 0 <= j < Rows(g) => g[j][i]))
  }

  /** The product can be formed: g's column count is h's row count. */
  predicate Conformable(g: Grid, h: Grid) {
    IsMatrix(g) && IsMatrix(h) && Cols(g) == Rows(h)
  }

  /** The first n terms of row i of g times column j of h, added in ascending
      order of k: g[i][0]*h[0][j] + ... + g[i][n-1]*h[n-1][j]. */
  function Dot(g: Grid, h: Grid, i: nat, j: nat, n: nat): real
    requires Conformable(g, h) && i < Rows(g) && j < Cols(h) && n <= Cols(g)
  {
    if n == 0 then 0.0 else Dot(g, h, i, j, n - 1) + g[i][n - 1] * h[n - 1][j]
  }

  /** The matrix product: entry (i, j) is the full dot product of row i and column j. */
  function Product(g: Grid, h: Grid): (r: Grid)
    requires Conformable(g, h)
    ensures IsMatrix(r) && Rows(r) == Rows(g) && Cols(r) == Cols(h)
  {
    seq(Rows(g), i requires 0 <= i < Rows(g) =>
      seq(Cols(h), j requires 0 <= j < Cols(h) => Dot(g, h, i, j, Cols(g))))
  }

  // ---------------------------------------------------------------------------
  // Equality of grids
  // ---------------------------------------------------------------------------

  /** Two grids of the same shape whose entries agree are equal. */
  lemma Extensionality(g: Grid, h: Grid)
    requires SameShape(g, h)
    requires forall i, j :: 0 <= i < Rows(g) && 0 <= j < Cols(g) ==> g[i][j] == h[i][j]
    ensures g == h
  {
    forall i | 0 <= i < Rows(g) ensures g[i] == h[i] {
      assert forall j :: 0 <= j < Cols(g) ==> g[i][j] == h[i][j];
    }
  }

  // ---------------------------------------------------------------------------
  // Laws
  // ---------------------------------------------------------------------------

  /** Adding the zero grid leaves a grid unchanged. */
  lemma PlusZero(g: Grid)
    requires IsMatrix(g)
    ensures Plus(g, Zero(Rows(g), Cols(g))) == g
  {
    Extensionality(Plus(g, Zero(Rows(g), Cols(g))), g);
  }

  lemma PlusCommutes(g: Grid, h: Grid)
    requires SameShape(g, h)
    ensures SameShape(h, g) && Plus(g, h) == Plus(h, g)
  {
    Extensionality(Plus(g, h), Plus(h, g));
  }

  lemma PlusAssociates(f: Grid, g: Grid, h: Grid)
    requires SameShape(f, g) && SameShape(f, h)
    ensures Plus(Plus(f, g), h) == Plus(f, Plus(g, h))
  {
    Extensionality(Plus(Plus(f, g), h), Plus(f, Plus(g, h)));
  }

  /** Scaling by 0 gives the zero grid of the same shape. */
  lemma ScaledByZero(g: Grid)
    requires IsMatrix(g)
    ensures Scaled(g, 0.0) == Zero(Rows(g), Cols(g))
  {
    Extensionality(Scaled(g, 0.0), Zero(Rows(g), Cols(g)));
  }

  /** Scaling is linear in the scalar. */
  lemma ScaledDistributes(g: Grid, c: real, d: real)
    requires IsMatrix(g)
    ensures Scaled(g, c + d) == Plus(Scaled(g, c), Scaled(g, d))
  {
    Extensionality(Scaled(g, c + d), Plus(Scaled(g, c), Scaled(g, d)));
  }

  /** Adding the negation (scaling by -1) is entry-wise subtraction. */
  lemma PlusNegatedIsDifference(g: Grid, h: Grid)
    requires SameShape(g, h)
    ensures SameShape(h, g) && Plus(g, Scaled(h, -1.0)) == Difference(g, h)
  {
    Extensionality(Plus(g, Scaled(h, -1.0)), Difference(g, h));
  }

  /** A grid minus itself is the zero grid. */
  lemma DifferenceWithItself(g: Grid)
    requires IsMatrix(g)
    ensures Difference(g, g) == Zero(Rows(g), Cols(g))
  {
    Extensionality(Difference(g, g), Zero(Rows(g), Cols(g)));
  }

  lemma HadamardByOnes(g: Grid)
    requires IsMatrix(g)
    ensures Hadamard(g, Ones(Rows(g), Cols(g))) == g
  {
    Extensionality(Hadamard(g, Ones(Rows(g), Cols(g))), g);
  }

  lemma HadamardByZero(g: Grid)
    requires IsMatrix(g)
    ensures Hadamard(g, Zero(Rows(g), Cols(g))) == Zero(Rows(g), Cols(g))
  {
    Extensionality(Hadamard(g, Zero(Rows(g), Cols(g))), Zero(Rows(g), Cols(g)));
  }

  lemma HadamardCommutes(g: Grid, h: Grid)
    requires SameShape(g, h)
    ensures SameShape(h, g) && Hadamard(g, h) == Hadamard(h, g)
  {
    Extensionality(Hadamard(g, h), Hadamard(h, g));
  }

  /** Transposition is an involution. */
  lemma TransposedTwice(g: Grid)
    requires IsMatrix(g)
    ensures Transposed(Transposed(g)) == g
  {
    Extensionality(Transposed(Transposed(g)), g);
  }

  /** The square zero grid is symmetric. */
  lemma TransposedSquareZero(n: nat)
    requires n >= 1
    ensures Transposed(Zero(n, n)) == Zero(n, n)
  {
    Extensionality(Transposed(Zero(n, n)), Zero(n, n));
  }

  lemma {:induction false} DotWithZeroColumn(g: Grid, h: Grid, i: nat, j: nat, n: nat)
    requires Conformable(g, h) && i < Rows(g) && j < Cols(h) && n <= Cols(g)
    requires forall k :: 0 <= k < Rows(h) ==> h[k][j] == 0.0
    ensures Dot(g, h, i, j, n) == 0.0
  {
    if n > 0 {
      DotWithZeroColumn(g, h, i, j, n - 1);
    }
  }

  /** Multiplying by a zero grid on the right gives the zero grid of the product's shape. */
  lemma ProductByZero(g: Grid, p: nat)
    requires IsMatrix(g) && p >= 1
    ensures Conformable(g, Zero(Cols(g), p))
    ensures Product(g, Zero(Cols(g), p)) == Zero(Rows(g), p)
  {
    var z := Zero(Cols(g), p);
    forall i, j | 0 <= i < Rows(g) && 0 <= j < p ensures Dot(g, z, i, j, Cols(g)) == 0.0 {
      DotWithZeroColumn(g, z, i, j, Cols(g));
    }
    Extensionality(Product(g, z), Zero(Rows(g), p));
  }

  lemma {:induction false} DotTransposed(g: Grid, h: Grid, i: nat, j: nat, n: nat)
    requires Conformable(g, h) && i < Rows(g) && j < Cols(h) && n <= Cols(g)
    ensures Conformable(Transposed(h), Transposed(g))
    ensures Dot(Transposed(h), Transposed(g), j, i, n) == Dot(g, h, i, j, n)
  {
    if n > 0 {
      DotTransposed(g, h, i, j, n - 1);
    }
  }

  /** The transpose of a product is the product of the transposes, in reverse order. */
  lemma ProductTransposed(g: Grid, h: Grid)
    requires Conformable(g, h)
    ensures Conformable(Transposed(h), Transposed(g))
    ensures Transposed(Product(g, h)) == Product(Transposed(h), Transposed(g))
  {
    var l, r := Transposed(Product(g, h)), Product(Transposed(h), Transposed(g));
    forall i, j | 0 <= i < Rows(l) && 0 <= j < Cols(l) ensures l[i][j] == r[i][j] {
      DotTransposed(g, h, j, i, Cols(g));
    }
    Extensionality(l, r);
  }
}
