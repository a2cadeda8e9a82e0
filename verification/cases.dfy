/** The worked cases of the matrix test suite, stated on grids: each lemma says
    that the function specifying an operation maps the suite's operands to the
    result the suite expects. Entries are exact reals, so 4.5F and 6.8F are the
    decimals 4.5 and 6.8. */
module TestCases {
  import opened Grids
  import opened Matrices

  /** [3 8 4.5] + [1 1 1] = [4 9 5.5]. */
  lemma AddSingleRow()
    ensures Plus([[3.0, 8.0, 4.5]], [[1.0, 1.0, 1.0]]) == [[4.0, 9.0, 5.5]]
  {
    Extensionality(Plus([[3.0, 8.0, 4.5]], [[1.0, 1.0, 1.0]]), [[4.0, 9.0, 5.5]]);
  }

  /** The 3-by-4 sum of the suite. */
  lemma AddThreeByFour()
    ensures Plus([[1.0, 2.0, 3.0, 1.5], [4.0, 5.0, 6.0, 4.5], [7.0, 8.0, 9.0, 7.5]],
                 [[1.0, 2.0, 3.0, 4.0], [5.0, 6.0, 7.0, 8.0], [9.0, 10.0, 11.0, 12.0]])
         == [[2.0, 4.0, 6.0, 5.5], [9.0, 11.0, 13.0, 12.5], [16.0, 18.0, 20.0, 19.5]]
  {
    var g := [[1.0, 2.0, 3.0, 1.5], [4.0, 5.0, 6.0, 4.5], [7.0, 8.0, 9.0, 7.5]];
    var h := [[1.0, 2.0, 3.0, 4.0], [5.0, 6.0, 7.0, 8.0], [9.0, 10.0, 11.0, 12.0]];
    Extensionality(Plus(g, h), [[2.0, 4.0, 6.0, 5.5], [9.0, 11.0, 13.0, 12.5], [16.0, 18.0, 20.0, 19.5]]);
  }

  /** 2 times the 3-by-3 matrix 1 .. 9. */
  lemma ScaleByTwo()
    ensures Scaled([[1.0, 2.0, 3.0], [4.0, 5.0, 6.0], [7.0, 8.0, 9.0]], 2.0)
         == [[2.0, 4.0, 6.0], [8.0, 10.0, 12.0], [14.0, 16.0, 18.0]]
  {
    var g := [[1.0, 2.0, 3.0], [4.0, 5.0, 6.0], [7.0, 8.0, 9.0]];
    Extensionality(Scaled(g, 2.0), [[2.0, 4.0, 6.0], [8.0, 10.0, 12.0], [14.0, 16.0, 18.0]]);
  }

  /** -2 times a 3-by-4 matrix. */
  lemma ScaleByMinusTwo()
    ensures Scaled([[1.0, 2.0, 3.0, 1.0], [4.0, 5.0, 6.0, 4.0], [7.0, 8.0, 9.0, 7.0]], -2.0)
         == [[-2.0, -4.0, -6.0, -2.0], [-8.0, -10.0, -12.0, -8.0], [-14.0, -16.0, -18.0, -14.0]]
  {
    var g := [[1.0, 2.0, 3.0, 1.0], [4.0, 5.0, 6.0, 4.0], [7.0, 8.0, 9.0, 7.0]];
    Extensionality(Scaled(g, -2.0), [[-2.0, -4.0, -6.0, -2.0], [-8.0, -10.0, -12.0, -8.0], [-14.0, -16.0, -18.0, -14.0]]);
  }

  /** A row times a column: [1 2 3 4 5] times its transpose is [55]. */
  lemma ProductRowByColumn()
    ensures Conformable([[1.0, 2.0, 3.0, 4.0, 5.0]], [[1.0], [2.0], [3.0], [4.0], [5.0]])
    ensures Product([[1.0, 2.0, 3.0, 4.0, 5.0]], [[1.0], [2.0], [3.0], [4.0], [5.0]]) == [[55.0]]
  {
    var g := [[1.0, 2.0, 3.0, 4.0, 5.0]];
    var h := [[1.0], [2.0], [3.0], [4.0], [5.0]];
    assert Dot(g, h, 0, 0, 1) == 1.0;
    assert Dot(g, h, 0, 0, 2) == 5.0;
    assert Dot(g, h, 0, 0, 3) == 14.0;
    assert Dot(g, h, 0, 0, 4) == 30.0;
    assert Dot(g, h, 0, 0, 5) == 55.0;
    Extensionality(Product(g, h), [[55.0]]);
  }

  /** The 4-by-3 times 3-by-4 product of the suite. */
  lemma ProductFourByThree()
    ensures Conformable([[1.0, 2.0, 3.0], [1.0, 4.0, 5.0], [6.0, 4.0, 7.0], [8.0, 9.0, 7.0]],
                        [[-2.0, -4.0, -6.0, -2.0], [-8.0, -10.0, -12.0, -8.0], [-14.0, -16.0, -18.0, -14.0]])
    ensures Product([[1.0, 2.0, 3.0], [1.0, 4.0, 5.0], [6.0, 4.0, 7.0], [8.0, 9.0, 7.0]],
                    [[-2.0, -4.0, -6.0, -2.0], [-8.0, -10.0, -12.0, -8.0], [-14.0, -16.0, -18.0, -14.0]])
         == [[-60.0, -72.0, -84.0, -60.0], [-104.0, -124.0, -144.0, -104.0],
             [-142.0, -176.0, -210.0, -142.0], [-186.0, -234.0, -282.0, -186.0]]
  {
    var g := [[1.0, 2.0, 3.0], [1.0, 4.0, 5.0], [6.0, 4.0, 7.0], [8.0, 9.0, 7.0]];
    var h := [[-2.0, -4.0, -6.0, -2.0], [-8.0, -10.0, -12.0, -8.0], [-14.0, -16.0, -18.0, -14.0]];
    var want := [[-60.0, -72.0, -84.0, -60.0], [-104.0, -124.0, -144.0, -104.0],
                 [-142.0, -176.0, -210.0, -142.0], [-186.0, -234.0, -282.0, -186.0]];
    forall i, j | 0 <= i < 4 && 0 <= j < 4 ensures Product(g, h)[i][j] == want[i][j] {
      assert Dot(g, h, i, j, 3) == g[i][0] * h[0][j] + g[i][1] * h[1][j] + g[i][2] * h[2][j];
    }
    Extensionality(Product(g, h), want);
  }

  /** [3 8 4.5] times [1 1 1] entry by entry is unchanged. */
  lemma HadamardSingleRow()
    ensures Hadamard([[3.0, 8.0, 4.5]], [[1.0, 1.0, 1.0]]) == [[3.0, 8.0, 4.5]]
  {
    Extensionality(Hadamard([[3.0, 8.0, 4.5]], [[1.0, 1.0, 1.0]]), [[3.0, 8.0, 4.5]]);
  }

  /** The 3-by-4 entry-wise product of the suite. */
  lemma HadamardThreeByFour()
    ensures Hadamard([[1.0, 2.0, 3.0, 1.5], [4.0, 5.0, 6.0, 4.5], [7.0, 8.0, 9.0, 7.5]],
                     [[1.0, 2.0, 3.0, 4.0], [5.0, 6.0, 7.0, 8.0], [9.0, 10.0, 11.0, 12.0]])
         == [[1.0, 4.0, 9.0, 6.0], [20.0, 30.0, 42.0, 36.0], [63.0, 80.0, 99.0, 90.0]]
  {
    var g := [[1.0, 2.0, 3.0, 1.5], [4.0, 5.0, 6.0, 4.5], [7.0, 8.0, 9.0, 7.5]];
    var h := [[1.0, 2.0, 3.0, 4.0], [5.0, 6.0, 7.0, 8.0], [9.0, 10.0, 11.0, 12.0]];
    Extensionality(Hadamard(g, h), [[1.0, 4.0, 9.0, 6.0], [20.0, 30.0, 42.0, 36.0], [63.0, 80.0, 99.0, 90.0]]);
  }

  /** A row transposes to a column. */
  lemma TransposeRow()
    ensures Transposed([[1.0, 2.0, 3.0]]) == [[1.0], [2.0], [3.0]]
  {
    Extensionality(Transposed([[1.0, 2.0, 3.0]]), [[1.0], [2.0], [3.0]]);
  }

  /** A 3-by-2 matrix transposes to the 2-by-3 one with rows and columns swapped. */
  lemma TransposeThreeByTwo()
    ensures Transposed([[1.0, 2.0], [3.0, 4.0], [5.0, 6.0]]) == [[1.0, 3.0, 5.0], [2.0, 4.0, 6.0]]
  {
    Extensionality(Transposed([[1.0, 2.0], [3.0, 4.0], [5.0, 6.0]]), [[1.0, 3.0, 5.0], [2.0, 4.0, 6.0]]);
  }

  /** Two matrices built over the same array are equal, and a write through one
      of them is read back through the other: the array is shared, not copied. */
  method SharedArrayCase() returns (equal: bool, seen: real)
    ensures equal && seen == 7.0
  {
    var d := new real[2, 3];
    d[0, 0], d[0, 1], d[0, 2] := 4.0, 2.0, 3.0;
    d[1, 0], d[1, 1], d[1, 2] := 8.0, 12.0, 6.8;
    var r1 := Matrix.FromArray(d);
    var r2 := Matrix.FromArray(d);
    var m1, m2 := r1.value, r2.value;
    equal := Matrix.EqualsOperator(m1, m2);
    m1.Set(1, 1, 7.0);
    seen := m2.Get(1, 1);
  }
}
