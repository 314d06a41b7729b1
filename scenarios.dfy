/**
 * The scenarios of the library's unit tests, and the inputs that show
 * `is_upper_triangular` and `get` misbehave.
 */
module Scenarios {
  import opened Wrappers
  import opened Shape
  import opened Matrices
  import opened Properties
  import opened Operators

  const Base: seq<seq<real>> := [[1.0, 3.0, 5.0], [2.0, 4.0, 6.0], [3.0, 7.0, 11.0]]

  /** The 3-by-3 matrix most tests build from `Base`. */
  lemma BaseMatrix()
    ensures FromRows(Base).Ok? && FromRows(Base).value.dimensions == Dimensions(3, 3)
  {
    assert Rectangular(Base);
  }

  /** `row(i)` returns row i of the input, and `column(i)` item i of every input row. */
  lemma RowAndColumnWork(i: nat)
    requires i < 3
    ensures Row(FromRows(Base).value, i) == Some(Base[i])
    ensures Column(FromRows(Base).value, i) == Some([Base[0][i], Base[1][i], Base[2][i]])
  {
    BaseMatrix();
    RowAndColumnOfThree(Base, i);
  }

  /** Row and column i of a matrix built from three rows. */
  lemma RowAndColumnOfThree(collection: seq<seq<real>>, i: nat)
    requires FromRows(collection).Ok? && |collection| == 3 && i < 3 && i < |collection[0]|
    ensures Row(FromRows(collection).value, i) == Some(collection[i])
    ensures Column(FromRows(collection).value, i) ==
      Some([collection[0][i], collection[1][i], collection[2][i]])
  {
    FromRowsRowAndColumn(collection, i, i);
    ItemsOfThree(collection, i);
  }

  /** Item i of each of three rows, listed. */
  lemma ItemsOfThree(collection: seq<seq<real>>, i: nat)
    requires |collection| == 3 && forall k | 0 <= k < 3 :: i < |collection[k]|
    ensures seq(|collection|, k requires 0 <= k < |collection| => collection[k][i]) ==
      [collection[0][i], collection[1][i], collection[2][i]]
  {
    var column := seq(|collection|, k requires 0 <= k < |collection| => collection[k][i]);
    assert column[0] == collection[0][i] && column[1] == collection[1][i] && column[2] == collection[2][i];
  }

  /** A sum equals the matrix built from `expected` when their entries agree. */
  lemma SumIs(a: Matrix, b: Matrix, expected: seq<seq<real>>)
    requires Valid(a) && Valid(b) && a.dimensions == b.dimensions
    requires FromRows(expected).Ok? && FromRows(expected).value.dimensions == a.dimensions
    requires forall i, j | 0 <= i < a.dimensions.rows && 0 <= j < a.dimensions.columns ::
      Entry(a, i, j) + Entry(b, i, j) == expected[i][j]
    ensures Add(a, b).Ok? && Equals(Add(a, b).value, FromRows(expected).value)
  {
    EntriesDetermine(Add(a, b).value, FromRows(expected).value);
  }

  /** A product equals the matrix built from `expected` when their entries agree. */
  lemma ProductIs(a: Matrix, b: Matrix, expected: seq<seq<real>>)
    requires Valid(a) && Valid(b) && a.dimensions.columns == b.dimensions.rows
    requires FromRows(expected).Ok?
    requires FromRows(expected).value.dimensions == Dimensions(a.dimensions.rows, b.dimensions.columns)
    requires forall i, j | 0 <= i < a.dimensions.rows && 0 <= j < b.dimensions.columns ::
      InnerSum(a, b, i, j, a.dimensions.columns) == expected[i][j]
    ensures Product(a, b).Ok? && Equals(Product(a, b).value, FromRows(expected).value)
  {
    EntriesDetermine(Product(a, b).value, FromRows(expected).value);
  }

  /** The constant-5 matrix plus `Base` is `Base` with 5 added to every entry. */
  lemma AdditionOfConstant()
    ensures FromRows(Base).Ok?
    ensures var five := WithValue(Square(3).value, 5.0);
      var expected := [[6.0, 8.0, 10.0], [7.0, 9.0, 11.0], [8.0, 12.0, 16.0]];
      Add(five, FromRows(Base).value).Ok? && FromRows(expected).Ok? &&
      Equals(Add(five, FromRows(Base).value).value, FromRows(expected).value)
  {
    BaseMatrix();
    var expected := [[6.0, 8.0, 10.0], [7.0, 9.0, 11.0], [8.0, 12.0, 16.0]];
    assert Rectangular(expected);
    var five, base := WithValue(Square(3).value, 5.0), FromRows(Base).value;
    forall i, j | 0 <= i < 3 && 0 <= j < 3 ensures Entry(five, i, j) + Entry(base, i, j) == expected[i][j] {
      assert Entry(five, i, j) == 5.0 && Entry(base, i, j) == Base[i][j];
      BasePlusFive(i, j);
    }
    SumIs(five, base, expected);
  }

  /** The arithmetic of the constant-addition test, item by item. */
  lemma BasePlusFive(i: nat, j: nat)
    requires i < 3 && j < 3
    ensures 5.0 + Base[i][j] == [[6.0, 8.0, 10.0], [7.0, 9.0, 11.0], [8.0, 12.0, 16.0]][i][j]
  {
    assert i == 0 || i == 1 || i == 2;
    assert j == 0 || j == 1 || j == 2;
  }

  /** The constant-5 matrix plus the 3-by-3 identity has 6 on the diagonal and 5 elsewhere. */
  lemma AdditionOfIdentity()
    ensures var five := WithValue(Square(3).value, 5.0);
      var expected := [[6.0, 5.0, 5.0], [5.0, 6.0, 5.0], [5.0, 5.0, 6.0]];
      Add(five, Identity(3).value).Ok? && FromRows(expected).Ok? &&
      Equals(Add(five, Identity(3).value).value, FromRows(expected).value)
  {
    var expected := [[6.0, 5.0, 5.0], [5.0, 6.0, 5.0], [5.0, 5.0, 6.0]];
    assert Rectangular(expected);
    var five, identity := WithValue(Square(3).value, 5.0), Identity(3).value;
    forall i, j | 0 <= i < 3 && 0 <= j < 3 ensures Entry(five, i, j) + Entry(identity, i, j) == expected[i][j] {
      assert i == 0 || i == 1 || i == 2;
      assert j == 0 || j == 1 || j == 2;
    }
    SumIs(five, identity, expected);
  }

  /** With a shared dimension of 2, each product entry is a sum of two products of entries. */
  lemma InnerSumOfTwo(a: Matrix, b: Matrix, i: nat, j: nat, x0: real, x1: real, y0: real, y1: real)
    requires Valid(a) && Valid(b) && a.dimensions.columns == b.dimensions.rows == 2
    requires i < a.dimensions.rows && j < b.dimensions.columns
    requires Entry(a, i, 0) == x0 && Entry(a, i, 1) == x1 && Entry(b, 0, j) == y0 && Entry(b, 1, j) == y1
    ensures InnerSum(a, b, i, j, 2) == x0 * y0 + x1 * y1
  {
    assert InnerSum(a, b, i, j, 1) == x0 * y0;
  }

  /** The same, for operands built from rows: the sum of two products of input items. */
  lemma InnerSumOfTwoRows(l: seq<seq<real>>, r: seq<seq<real>>, i: nat, j: nat)
    requires FromRows(l).Ok? && FromRows(r).Ok? && |l[0]| == |r| == 2
    requires i < |l| && j < |r[0]|
    ensures InnerSum(FromRows(l).value, FromRows(r).value, i, j, 2) ==
      l[i][0] * r[0][j] + l[i][1] * r[1][j]
  {
    InnerSumOfTwo(FromRows(l).value, FromRows(r).value, i, j, l[i][0], l[i][1], r[0][j], r[1][j]);
  }

  /** The 3-by-2 times 2-by-3 product of the multiplication test. */
  lemma MultiplicationOfControlledMatrices()
    ensures var left := FromRows([[2.0, 1.0], [0.0, 3.0], [-1.0, 2.0]]);
      var right := FromRows([[-1.0, 0.0, 1.0], [2.0, 3.0, -1.0]]);
      var expected := FromRows([[0.0, 3.0, 1.0], [6.0, 9.0, -3.0], [5.0, 6.0, -3.0]]);
      left.Ok? && right.Ok? && expected.Ok? &&
      Product(left.value, right.value).Ok? && Equals(Product(left.value, right.value).value, expected.value)
  {
    var l := [[2.0, 1.0], [0.0, 3.0], [-1.0, 2.0]];
    var r := [[-1.0, 0.0, 1.0], [2.0, 3.0, -1.0]];
    var e := [[0.0, 3.0, 1.0], [6.0, 9.0, -3.0], [5.0, 6.0, -3.0]];
    assert Rectangular(l) && Rectangular(r) && Rectangular(e);
    var left, right := FromRows(l).value, FromRows(r).value;
    forall i, j | 0 <= i < 3 && 0 <= j < 3 ensures InnerSum(left, right, i, j, 2) == e[i][j] {
      InnerSumOfTwoRows(l, r, i, j);
      assert i == 0 || i == 1 || i == 2;
      assert j == 0 || j == 1 || j == 2;
    }
    ProductIs(left, right, e);
  }

  /** `Base` is square, but neither a row, a column, diagonal, scalar, identity nor triangular. */
  lemma BaseClassification()
    ensures var m := FromRows(Base).value;
      FromRows(Base).Ok? && IsSquare(m) && !IsRow(m) && !IsColumn(m) && !IsIdentity(m) &&
      IsDiagonal(m) == Ok(false) && IsScalar(m) == Ok(false) &&
      IsLowerTriangular(m) == Ok(false) && IsUpperTriangular(m) == Ok(false) &&
      IsUpperTriangularCorrected(m) == Ok(false)
  {
    BaseMatrix();
    var m := FromRows(Base).value;
    assert Entry(m, 0, 1) == 3.0;
    assert Entry(m, 1, 0) == 2.0;
    NonzeroBothSides(m);
  }

  /**
   * A square matrix of size 2 or more with nonzero entries (0, 1) and (1, 0)
   * is no row or column, and neither diagonal, scalar, identity nor triangular.
   */
  lemma NonzeroBothSides(m: Matrix)
    requires Valid(m) && IsSquare(m) && m.dimensions.rows >= 2
    requires Entry(m, 0, 1) != 0.0 && Entry(m, 1, 0) != 0.0
    ensures !IsRow(m) && !IsColumn(m) && !IsIdentity(m)
    ensures IsDiagonal(m) == Ok(false) && IsScalar(m) == Ok(false)
    ensures IsLowerTriangular(m) == Ok(false) && IsUpperTriangular(m) == Ok(false)
    ensures IsUpperTriangularCorrected(m) == Ok(false)
  {
    assert !OffDiagonalZero(m);
    assert !ZeroAboveDiagonal(m);
    assert !ZeroBelowDiagonal(m);
  }

  /** `identity(5)` is square, diagonal, scalar, identity and triangular, but no row or column. */
  lemma IdentityFiveClassification()
    ensures var m := Identity(5).value;
      IsSquare(m) && !IsRow(m) && !IsColumn(m) && IsIdentity(m) &&
      IsDiagonal(m) == Ok(true) && IsScalar(m) == Ok(true) &&
      IsLowerTriangular(m) == Ok(true) && IsUpperTriangular(m) == Ok(true)
  {
    IdentityClassification(5);
  }

  /** A single column of three is a column and not square; a single row of three is a row. */
  lemma ColumnAndRowShapes()
    ensures FromRows([[1.0], [2.0], [3.0]]).Ok? && IsColumn(FromRows([[1.0], [2.0], [3.0]]).value)
    ensures !IsSquare(FromRows([[1.0], [2.0], [3.0]]).value)
    ensures FromRows([[1.0, 3.0, 5.0]]).Ok? && IsRow(FromRows([[1.0, 3.0, 5.0]]).value)
  {
    assert Rectangular([[1.0], [2.0], [3.0]]);
    assert Rectangular([[1.0, 3.0, 5.0]]);
  }

  /** Ragged rows, no rows and empty rows all panic. */
  lemma FromRowsPanics()
    ensures FromRows([[1.0, 2.0], [3.0]]) == Panicked(RaggedRows)
    ensures FromRows([]) == Panicked(EmptyCollection)
    ensures FromRows([[], []]) == Panicked(ColumnsNotPositive)
  {
    var ragged: seq<seq<real>> := [[1.0, 2.0], [3.0]];
    assert |ragged[0]| != |ragged[1]|;
    assert Rectangular([[], []]);
  }

  /**
   * As written, `is_upper_triangular` accepts [[1, 0], [2, 1]], which has 2
   * below its diagonal; the corrected test rejects it.
   */
  lemma UpperTriangularAcceptsLower()
    ensures FromRows([[1.0, 0.0], [2.0, 1.0]]).Ok?
    ensures var m := FromRows([[1.0, 0.0], [2.0, 1.0]]).value;
      IsUpperTriangular(m) == Ok(true) && IsUpperTriangularCorrected(m) == Ok(false)
  {
    var rows := [[1.0, 0.0], [2.0, 1.0]];
    assert Rectangular(rows);
    var m := FromRows(rows).value;
    assert Entry(m, 1, 0) == 2.0;
    assert Entry(m, 0, 1) == 0.0;
    assert ZeroAboveDiagonal(m) by {
      forall i, j | 0 <= i < j < 2 ensures Entry(m, i, j) == 0.0 {
        assert i == 0 && j == 1;
      }
    }
  }

  /**
   * As written, `is_upper_triangular` rejects [[1, 2], [0, 1]], which is
   * upper triangular; the corrected test accepts it.
   */
  lemma UpperTriangularRejectsUpper()
    ensures FromRows([[1.0, 2.0], [0.0, 1.0]]).Ok?
    ensures var m := FromRows([[1.0, 2.0], [0.0, 1.0]]).value;
      IsUpperTriangular(m) == Ok(false) && IsUpperTriangularCorrected(m) == Ok(true)
  {
    var rows := [[1.0, 2.0], [0.0, 1.0]];
    assert Rectangular(rows);
    var m := FromRows(rows).value;
    assert Entry(m, 0, 1) == 2.0;
    assert Entry(m, 1, 0) == 0.0;
    assert ZeroBelowDiagonal(m) by {
      forall i, j | 0 <= j < i < 2 ensures Entry(m, i, j) == 0.0 {
        assert i == 1 && j == 0;
      }
    }
  }

  /** As written, `get(0, 3)` on `Base` reads entry (1, 0); the checked read is absent. */
  lemma GetPastRowEndOnBase()
    ensures Get(FromRows(Base).value, 0, 3) == Some(2.0)
    ensures CheckedGet(FromRows(Base).value, 0, 3) == None
  {
    BaseMatrix();
    GetPastRowEnd(FromRows(Base).value);
  }
}
