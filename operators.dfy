/** The operators on matrices: `Add`, `dot_product` and `Mul`. */
module Operators {
  import opened Wrappers
  import opened Shape
  import opened Indexing
  import opened Matrices

  /** `zip(..).map(|(x, y)| x + y)`: pairwise sums, as long as the shorter operand. */
  function ZipSum(first: seq<real>, second: seq<real>): (r: seq<real>)
    ensures |r| == if |first| <= |second| then |first| else |second|
  {
    var n := if |first| <= |second| then |first| else |second|;
    seq(n, k requires 0 <= k < n => first[k] + second[k])
  }

  /**
   * `Add`: panics unless both matrices have the same dimensions; otherwise
   * each entry is the sum of the two entries, under the left operand's dimensions.
   */
  function Add(a: Matrix, b: Matrix): (r: Result<Matrix>)
    requires Valid(a) && Valid(b)
    ensures r.Ok? <==> IsSameSize(a, b)
    ensures r.Panicked? ==> r.panic == DimensionsDiffer
    ensures r.Ok? ==> Valid(r.value) && r.value.dimensions == a.dimensions
    ensures r.Ok? ==> forall i, j | 0 <= i < a.dimensions.rows && 0 <= j < a.dimensions.columns ::
      Entry(r.value, i, j) == Entry(a, i, j) + Entry(b, i, j)
  {
    if !IsSameSize(a, b) then Panicked(DimensionsDiffer)
    else Ok(Matrix(ZipSum(a.buffer, b.buffer), a.dimensions))
  }

  /** Addition commutes, panics included. */
  lemma AddCommutative(a: Matrix, b: Matrix)
    requires Valid(a) && Valid(b)
    ensures Add(a, b) == Add(b, a)
  {
    if IsSameSize(a, b) {
      EntriesDetermine(Add(a, b).value, Add(b, a).value);
    }
  }

  /** Addition of matrices of one size is associative. */
  lemma AddAssociative(a: Matrix, b: Matrix, c: Matrix)
    requires Valid(a) && Valid(b) && Valid(c)
    requires a.dimensions == b.dimensions == c.dimensions
    ensures Add(Add(a, b).value, c) == Add(a, Add(b, c).value)
  {
    var left, right := Add(Add(a, b).value, c).value, Add(a, Add(b, c).value).value;
    forall i, j | 0 <= i < a.dimensions.rows && 0 <= j < a.dimensions.columns
      ensures Entry(left, i, j) == Entry(right, i, j)
    {
      assert Entry(left, i, j) == (Entry(a, i, j) + Entry(b, i, j)) + Entry(c, i, j);
    }
    EntriesDetermine(left, right);
  }

  /** Adding the zero matrix of the same dimensions, on either side, changes nothing. */
  lemma AddZero(a: Matrix)
    requires Valid(a)
    ensures Add(a, Zero(a.dimensions)) == Ok(a)
    ensures Add(Zero(a.dimensions), a) == Ok(a)
  {
    var z := Zero(a.dimensions);
    EntriesDetermine(Add(a, z).value, a);
    AddCommutative(a, z);
  }

  /** `dot_product`: the sum of the pairwise products, as long as the shorter operand. */
  function DotProduct(first: seq<real>, second: seq<real>): (r: real)
  {
    if |first| == 0 || |second| == 0 then 0.0
    else first[0] * second[0] + DotProduct(first[1..], second[1..])
  }

  /** The dot product grows by the product of the last items. */
  lemma {:induction false} DotProductSnoc(first: seq<real>, second: seq<real>)
    requires |first| == |second| > 0
    ensures var n := |first| - 1;
      DotProduct(first, second) == DotProduct(first[..n], second[..n]) + first[n] * second[n]
  {
    var n := |first| - 1;
    if n > 0 {
      DotProductSnoc(first[1..], second[1..]);
      assert first[1..][..n - 1] == first[..n][1..];
      assert second[1..][..n - 1] == second[..n][1..];
    }
  }

  /** The dot product pairs items in order and does not depend on which operand is first. */
  lemma {:induction false} DotProductSymmetric(first: seq<real>, second: seq<real>)
    ensures DotProduct(first, second) == DotProduct(second, first)
  {
    if |first| > 0 && |second| > 0 {
      DotProductSymmetric(first[1..], second[1..]);
    }
  }

  /** Reference sum: entry (i, k) of a times entry (k, j) of b, over k < n. */
  function InnerSum(a: Matrix, b: Matrix, i: nat, j: nat, n: nat): (r: real)
    requires Valid(a) && Valid(b) && a.dimensions.columns == b.dimensions.rows
    requires i < a.dimensions.rows && j < b.dimensions.columns && n <= a.dimensions.columns
  {
    if n == 0 then 0.0 else InnerSum(a, b, i, j, n - 1) + Entry(a, i, n - 1) * Entry(b, n - 1, j)
  }

  /** Row i of a dotted with column j of b is the reference sum over the shared dimension. */
  lemma RowTimesColumn(a: Matrix, b: Matrix, i: nat, j: nat)
    requires Valid(a) && Valid(b) && a.dimensions.columns == b.dimensions.rows
    requires i < a.dimensions.rows && j < b.dimensions.columns
    ensures DotProduct(Row(a, i).value, Column(b, j).value) == InnerSum(a, b, i, j, a.dimensions.columns)
  {
    var row, column := Row(a, i).value, Column(b, j).value;
    var n := a.dimensions.columns;
    assert row == Rows(a)[i] && column == Columns(b)[j];
    PrefixTimesPrefix(row, column, n);
    PairSumOfEntries(a, b, i, j, row, column, n);
    assert row[..n] == row && column[..n] == column;
  }

  /** Sum of row[k] * column[k] over k < n, adding the last product last. */
  function PairSum(row: seq<real>, column: seq<real>, n: nat): (r: real)
    requires n <= |row| && n <= |column|
  {
    if n == 0 then 0.0 else PairSum(row, column, n - 1) + row[n - 1] * column[n - 1]
  }

  /** The dot product of the first n items of each operand is their pairwise sum. */
  lemma {:induction false} PrefixTimesPrefix(row: seq<real>, column: seq<real>, n: nat)
    requires n <= |row| && n <= |column|
    ensures DotProduct(row[..n], column[..n]) == PairSum(row, column, n)
  {
    if n > 0 {
      PrefixTimesPrefix(row, column, n - 1);
      var first, second := row[..n], column[..n];
      DotProductSnoc(first, second);
      assert first[..n - 1] == row[..n - 1] && second[..n - 1] == column[..n - 1];
    }
  }

  /**
   * `zip` stops at the shorter operand: the dot product only reads the first
   * n items of each, n the shorter length.
   */
  lemma {:induction false} DotProductTruncates(first: seq<real>, second: seq<real>)
    ensures var n := if |first| <= |second| then |first| else |second|;
      DotProduct(first, second) == DotProduct(first[..n], second[..n])
  {
    var n := if |first| <= |second| then |first| else |second|;
    if n > 0 {
      DotProductTruncates(first[1..], second[1..]);
      assert first[..n][1..] == first[1..][..n - 1];
      assert second[..n][1..] == second[1..][..n - 1];
    }
  }

  /** For operands of any lengths, the dot product is the pairwise sum over the shorter length. */
  lemma DotProductIsPairSum(first: seq<real>, second: seq<real>)
    ensures var n := if |first| <= |second| then |first| else |second|;
      DotProduct(first, second) == PairSum(first, second, n)
  {
    var n := if |first| <= |second| then |first| else |second|;
    DotProductTruncates(first, second);
    PrefixTimesPrefix(first, second, n);
  }

  /** Over a row of a and a column of b, the pairwise sum is the reference sum. */
  lemma {:induction false} PairSumOfEntries(a: Matrix, b: Matrix, i: nat, j: nat, row: seq<real>, column: seq<real>, n: nat)
    requires Valid(a) && Valid(b) && a.dimensions.columns == b.dimensions.rows
    requires i < a.dimensions.rows && j < b.dimensions.columns && n <= a.dimensions.columns
    requires |row| == |column| == a.dimensions.columns
    requires forall k | 0 <= k < |row| :: row[k] == Entry(a, i, k) && column[k] == Entry(b, k, j)
    ensures PairSum(row, column, n) == InnerSum(a, b, i, j, n)
  {
    if n > 0 {
      PairSumOfEntries(a, b, i, j, row, column, n - 1);
      assert row[n - 1] == Entry(a, i, n - 1) && column[n - 1] == Entry(b, n - 1, j);
    }
  }

  /**
   * The matrix product: panics unless left columns equal right rows;
   * otherwise (left rows) by (right columns), entry (i, j) being the sum over
   * k of left (i, k) times right (k, j).
   */
  function Product(a: Matrix, b: Matrix): (r: Result<Matrix>)
    requires Valid(a) && Valid(b)
    ensures r.Ok? <==> a.dimensions.columns == b.dimensions.rows
    ensures r.Panicked? ==> r.panic == InnerDimensionsDiffer
    ensures r.Ok? ==> Valid(r.value) && r.value.dimensions == Dimensions(a.dimensions.rows, b.dimensions.columns)
    ensures r.Ok? ==> forall i, j | 0 <= i < a.dimensions.rows && 0 <= j < b.dimensions.columns ::
      Entry(r.value, i, j) == InnerSum(a, b, i, j, a.dimensions.columns)
  {
    if a.dimensions.columns != b.dimensions.rows then Panicked(InnerDimensionsDiffer)
    else
      var rows, columns := a.dimensions.rows, b.dimensions.columns;
      var buffer := seq(rows * columns, k requires 0 <= k < rows * columns => ProductItem(a, b, k));
      assert forall i, j | 0 <= i < rows && 0 <= j < columns ::
        buffer[Flat(i, j, rows, columns)] == InnerSum(a, b, i, j, a.dimensions.columns) by {
        forall i, j | 0 <= i < rows && 0 <= j < columns
          ensures buffer[Flat(i, j, rows, columns)] == InnerSum(a, b, i, j, a.dimensions.columns)
        {
          FlatDecodes(i, j, rows, columns);
        }
      }
      Ok(Matrix(buffer, Dimensions(rows, columns)))
  }

  /** Item k of the product buffer: the reference sum for entry (k / columns, k % columns). */
  function ProductItem(a: Matrix, b: Matrix, k: nat): (r: real)
    requires Valid(a) && Valid(b) && a.dimensions.columns == b.dimensions.rows
    requires k < a.dimensions.rows * b.dimensions.columns
  {
    FlatRowBound(k, a.dimensions.rows, b.dimensions.columns);
    InnerSum(a, b, k / b.dimensions.columns, k % b.dimensions.columns, a.dimensions.columns)
  }

  /**
   * `Mul`: after the inner-dimension check, pushes the dot product of row i
   * of the left operand and column j of the right operand for every i, then
   * every j, and wraps the buffer in (left rows, right columns) dimensions.
   */
  method Mul(a: Matrix, b: Matrix) returns (r: Result<Matrix>)
    requires Valid(a) && Valid(b)
    ensures r == Product(a, b)
  {
    if a.dimensions.columns != b.dimensions.rows {
      return Panicked(InnerDimensionsDiffer);
    }
    var selfRows, otherColumns := a.dimensions.rows, b.dimensions.columns;
    ghost var expected := Product(a, b).value.buffer;
    var resultCollection: seq<real> := [];
    for selfI := 0 to selfRows
      invariant |resultCollection| == selfI * otherColumns <= |expected|
      invariant resultCollection == expected[..|resultCollection|]
    {
      MulMonotone(selfI + 1, selfRows, otherColumns);
      ghost var rowStart := selfI * otherColumns;
      for otherJ := 0 to otherColumns
        invariant |resultCollection| == rowStart + otherJ <= rowStart + otherColumns
        invariant resultCollection == expected[..|resultCollection|]
      {
        var item := DotProduct(Row(a, selfI).value, Column(b, otherJ).value);
        MulStep(a, b, selfI, otherJ, resultCollection);
        resultCollection := resultCollection + [item];
      }
      assert rowStart + otherColumns == (selfI + 1) * otherColumns;
    }
    assert |expected| == selfRows * otherColumns;
    assert resultCollection == expected;
    var dimensions := New(selfRows, otherColumns);
    r := Ok(Matrix(resultCollection, dimensions.value));
  }

  /** The item `Mul` pushes for (i, j) is item i * columns + j of the product buffer. */
  lemma MulItem(a: Matrix, b: Matrix, i: nat, j: nat)
    requires Valid(a) && Valid(b) && a.dimensions.columns == b.dimensions.rows
    requires i < a.dimensions.rows && j < b.dimensions.columns
    ensures i * b.dimensions.columns + j < |Product(a, b).value.buffer|
    ensures Product(a, b).value.buffer[i * b.dimensions.columns + j] ==
      DotProduct(Row(a, i).value, Column(b, j).value)
  {
    RowTimesColumn(a, b, i, j);
    var k := Flat(i, j, a.dimensions.rows, b.dimensions.columns);
    assert Entry(Product(a, b).value, i, j) == Product(a, b).value.buffer[k];
  }

  /** Appending item k of `s` to its first k items gives its first k + 1 items. */
  lemma PrefixExtend(s: seq<real>, prefix: seq<real>, item: real)
    requires |prefix| < |s| && prefix == s[..|prefix|] && s[|prefix|] == item
    ensures prefix + [item] == s[..|prefix| + 1]
  {
  }

  /**
   * The step of `Mul` at (i, j): the buffer built so far is the product buffer
   * up to item i * columns + j, and pushing the dot product of row i and
   * column j extends it by one item.
   */
  lemma MulStep(a: Matrix, b: Matrix, i: nat, j: nat, prefix: seq<real>)
    requires Valid(a) && Valid(b) && a.dimensions.columns == b.dimensions.rows
    requires i < a.dimensions.rows && j < b.dimensions.columns
    requires |prefix| == Flat(i, j, a.dimensions.rows, b.dimensions.columns)
    requires prefix == Product(a, b).value.buffer[..|prefix|]
    ensures |prefix| < |Product(a, b).value.buffer|
    ensures prefix + [DotProduct(Row(a, i).value, Column(b, j).value)] ==
      Product(a, b).value.buffer[..|prefix| + 1]
  {
    MulItem(a, b, i, j);
    PrefixExtend(Product(a, b).value.buffer, prefix, DotProduct(Row(a, i).value, Column(b, j).value));
  }

  /** Sum over k < n of entry (i, k) of a times the identity's entry (k, j). */
  lemma {:induction false} InnerSumIdentityRight(a: Matrix, i: nat, j: nat, n: nat)
    requires Valid(a) && i < a.dimensions.rows && j < a.dimensions.columns && n <= a.dimensions.columns
    ensures InnerSum(a, Identity(a.dimensions.columns).value, i, j, n) == if j < n then Entry(a, i, j) else 0.0
  {
    if n > 0 {
      InnerSumIdentityRight(a, i, j, n - 1);
    }
  }

  lemma {:induction false} InnerSumIdentityLeft(a: Matrix, i: nat, j: nat, n: nat)
    requires Valid(a) && i < a.dimensions.rows && j < a.dimensions.columns && n <= a.dimensions.rows
    ensures InnerSum(Identity(a.dimensions.rows).value, a, i, j, n) == if i < n then Entry(a, i, j) else 0.0
  {
    if n > 0 {
      InnerSumIdentityLeft(a, i, j, n - 1);
    }
  }

  /** Multiplying by the identity of the matching size, on either side, gives the matrix back. */
  lemma MulIdentity(a: Matrix)
    requires Valid(a)
    ensures Product(a, Identity(a.dimensions.columns).value) == Ok(a)
    ensures Product(Identity(a.dimensions.rows).value, a) == Ok(a)
  {
    var right := Product(a, Identity(a.dimensions.columns).value).value;
    var left := Product(Identity(a.dimensions.rows).value, a).value;
    forall i, j | 0 <= i < a.dimensions.rows && 0 <= j < a.dimensions.columns
      ensures Entry(right, i, j) == Entry(a, i, j) && Entry(left, i, j) == Entry(a, i, j)
    {
      InnerSumIdentityRight(a, i, j, a.dimensions.columns);
      InnerSumIdentityLeft(a, i, j, a.dimensions.rows);
    }
    EntriesDetermine(right, a);
    EntriesDetermine(left, a);
  }
}
