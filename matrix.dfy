/**
 * The matrix value: a flat row-major buffer of entries and its dimensions,
 * with its constructors, its element access and its shape comparisons.
 */
module Matrices {
  import opened Wrappers
  import opened Shape
  import opened Indexing
  import opened Iterators

  /** `Matrix { buffer, dimensions }`; entry (i, j) sits at `buffer[i * columns + j]`. */
  datatype Matrix = Matrix(buffer: seq<real>, dimensions: Dimensions)

  /** What every constructor establishes: valid dimensions and rows * columns entries. */
  predicate Valid(m: Matrix)
  {
    m.dimensions.Valid() && |m.buffer| == m.dimensions.rows * m.dimensions.columns
  }

  /** Entry (i, j) of a valid matrix. */
  function Entry(m: Matrix, i: nat, j: nat): (r: real)
    requires Valid(m) && i < m.dimensions.rows && j < m.dimensions.columns
  {
    m.buffer[Flat(i, j, m.dimensions.rows, m.dimensions.columns)]
  }

  /** A valid matrix is determined by its dimensions and its entries. */
  lemma EntriesDetermine(a: Matrix, b: Matrix)
    requires Valid(a) && Valid(b) && a.dimensions == b.dimensions
    requires forall i, j | 0 <= i < a.dimensions.rows && 0 <= j < a.dimensions.columns ::
      Entry(a, i, j) == Entry(b, i, j)
    ensures a == b
  {
    var rows, columns := a.dimensions.rows, a.dimensions.columns;
    forall k | 0 <= k < |a.buffer| ensures a.buffer[k] == b.buffer[k] {
      var i, j := FlatDecode(k, rows, columns);
      assert Entry(a, i, j) == Entry(b, i, j);
    }
  }

  // Constructors

  /** `Matrix::with_value`: every one of the rows * columns entries is `value`. */
  function WithValue(dimensions: Dimensions, value: real): (r: Matrix)
    ensures r.dimensions == dimensions && |r.buffer| == dimensions.rows * dimensions.columns
    ensures forall k | 0 <= k < |r.buffer| :: r.buffer[k] == value
    ensures dimensions.Valid() ==> Valid(r)
    ensures dimensions.Valid() ==>
      forall i, j | 0 <= i < dimensions.rows && 0 <= j < dimensions.columns :: Entry(r, i, j) == value
  {
    Matrix(seq(dimensions.columns * dimensions.rows, _ => value), dimensions)
  }

  /** `Matrix::zero`: the matrix of the given dimensions whose entries are all 0. */
  function Zero(dimensions: Dimensions): (r: Matrix)
    ensures r.dimensions == dimensions && |r.buffer| == dimensions.rows * dimensions.columns
    ensures forall k | 0 <= k < |r.buffer| :: r.buffer[k] == 0.0
    ensures dimensions.Valid() ==>
      Valid(r) && forall i, j | 0 <= i < dimensions.rows && 0 <= j < dimensions.columns :: Entry(r, i, j) == 0.0
  {
    WithValue(dimensions, 0.0)
  }

  /**
   * Item i of the buffer `Matrix::scalar` builds: `diagonal[i / (size + 1)]`
   * when i is a multiple of size + 1, otherwise 0.
   */
  function ScalarItem(diagonal: seq<real>, i: nat): (r: real)
    requires i < |diagonal| * |diagonal|
  {
    var size := |diagonal|;
    if i % (size + 1) != 0 then 0.0
    else
      DiagonalSlotBound(size, i);
      diagonal[i / (size + 1)]
  }

  function ScalarBuffer(diagonal: seq<real>): (r: seq<real>)
  {
    var size := |diagonal|;
    seq(size * size, i requires 0 <= i < size * size => ScalarItem(diagonal, i))
  }

  /** The (i, i)-th multiple-of-(size + 1) slot holds `diagonal[i]`; all other slots hold 0. */
  lemma ScalarBufferLayout(diagonal: seq<real>)
    ensures |ScalarBuffer(diagonal)| == |diagonal| * |diagonal|
    ensures forall i, j | 0 <= i < |diagonal| && 0 <= j < |diagonal| ::
      ScalarBuffer(diagonal)[Flat(i, j, |diagonal|, |diagonal|)] == if i == j then diagonal[i] else 0.0
  {
    var n := |diagonal|;
    forall i, j | 0 <= i < n && 0 <= j < n
      ensures ScalarBuffer(diagonal)[Flat(i, j, n, n)] == if i == j then diagonal[i] else 0.0
    {
      DiagonalIndex(n, i, j);
    }
  }

  /**
   * `Matrix::scalar`: the size-by-size matrix, size = |diagonal|, with
   * `diagonal` on its main diagonal and 0 elsewhere; panics for size 0.
   */
  function Scalar(diagonal: seq<real>): (r: Result<Matrix>)
    ensures r.Panicked? <==> |diagonal| == 0
    ensures r.Panicked? ==> r.panic == RowsNotPositive
    ensures r.Ok? ==> Valid(r.value) && r.value.dimensions == Dimensions(|diagonal|, |diagonal|)
    ensures r.Ok? ==> forall i, j | 0 <= i < |diagonal| && 0 <= j < |diagonal| ::
      Entry(r.value, i, j) == if i == j then diagonal[i] else 0.0
  {
    ScalarBufferLayout(diagonal);
    match Square(|diagonal|)
    case Panicked(p) => Panicked(p)
    case Ok(d) => Ok(Matrix(ScalarBuffer(diagonal), d))
  }

  function IdentityBuffer(size: nat): (r: seq<real>)
  {
    seq(size * size, i requires 0 <= i < size * size => if i % (size + 1) == 0 then 1.0 else 0.0)
  }

  /**
   * `Matrix::identity`: the size-by-size matrix with 1 on the main diagonal
   * and 0 elsewhere; panics for size 0.
   */
  function Identity(size: nat): (r: Result<Matrix>)
    ensures r.Panicked? <==> size == 0
    ensures r.Panicked? ==> r.panic == RowsNotPositive
    ensures r.Ok? ==> Valid(r.value) && r.value.dimensions == Dimensions(size, size)
    ensures r.Ok? ==> forall i, j | 0 <= i < size && 0 <= j < size ::
      Entry(r.value, i, j) == if i == j then 1.0 else 0.0
  {
    IdentityBufferLayout(size);
    match Square(size)
    case Panicked(p) => Panicked(p)
    case Ok(d) => Ok(Matrix(IdentityBuffer(size), d))
  }

  lemma IdentityBufferLayout(size: nat)
    ensures |IdentityBuffer(size)| == size * size
    ensures forall i, j | 0 <= i < size && 0 <= j < size ::
      IdentityBuffer(size)[Flat(i, j, size, size)] == if i == j then 1.0 else 0.0
  {
    forall i, j | 0 <= i < size && 0 <= j < size
      ensures IdentityBuffer(size)[Flat(i, j, size, size)] == if i == j then 1.0 else 0.0
    {
      DiagonalIndex(size, i, j);
    }
  }

  /** `identity(n)` is `scalar` of n ones, panics included. */
  lemma IdentityIsScalarOfOnes(size: nat)
    ensures Identity(size) == Scalar(seq(size, _ => 1.0))
  {
    var ones := seq(size, _ => 1.0);
    if size > 0 {
      forall k | 0 <= k < size * size ensures IdentityBuffer(size)[k] == ScalarBuffer(ones)[k] {
        if k % (size + 1) == 0 {
          DiagonalSlotBound(size, k);
        }
      }
      assert IdentityBuffer(size) == ScalarBuffer(ones);
    }
  }

  // Element access

  /** `rows()`: the rows of the matrix, row i holding entries (i, 0), (i, 1), ... */
  function Rows(m: Matrix): (r: seq<seq<real>>)
    requires Valid(m)
    ensures |r| == m.dimensions.rows
    ensures forall i | 0 <= i < |r| :: |r[i]| == m.dimensions.columns
    ensures forall i, j | 0 <= i < |r| && 0 <= j < m.dimensions.columns :: r[i][j] == Entry(m, i, j)
  {
    ChunksExactOfMultiple(m.buffer, m.dimensions.columns, m.dimensions.rows);
    ChunksExact(m.buffer, m.dimensions.columns)
  }

  /** Column c, read as `buffer.iter().skip(c).step_by(columns)`. */
  function ColumnItems(m: Matrix, c: nat): (r: seq<real>)
    requires Valid(m) && c < m.dimensions.columns
    ensures |r| == m.dimensions.rows
    ensures forall i | 0 <= i < |r| :: r[i] == Entry(m, i, c)
  {
    MulMonotone(1, m.dimensions.rows, m.dimensions.columns);
    StepByColumn(m.buffer, m.dimensions.columns, m.dimensions.rows, c);
    assert Skip(m.buffer, c) == m.buffer[c..];
    StepBy(Skip(m.buffer, c), m.dimensions.columns)
  }

  /** `columns()`: the columns of the matrix, column j holding entries (0, j), (1, j), ... */
  function Columns(m: Matrix): (r: seq<seq<real>>)
    requires Valid(m)
    ensures |r| == m.dimensions.columns
    ensures forall j | 0 <= j < |r| :: |r[j]| == m.dimensions.rows
    ensures forall j, i | 0 <= j < |r| && 0 <= i < m.dimensions.rows :: r[j][i] == Entry(m, i, j)
  {
    seq(m.dimensions.columns, c requires 0 <= c < m.dimensions.columns => ColumnItems(m, c))
  }

  /**
   * `get(i, j)`: the buffer item at `i * columns + j`, if there is one. The
   * column is not checked, so a column past the end reads into a later row:
   * the result is entry (i + j / columns, j % columns) when that row exists.
   */
  function Get(m: Matrix, i: nat, j: nat): (r: Option<real>)
    requires Valid(m)
    ensures r.Some? <==> i + j / m.dimensions.columns < m.dimensions.rows
    ensures r.Some? ==> r.value == Entry(m, i + j / m.dimensions.columns, j % m.dimensions.columns)
  {
    var index := i * m.dimensions.columns + j;
    GetIndex(i, j, m.dimensions.rows, m.dimensions.columns);
    if index < |m.buffer| then Some(m.buffer[index]) else None
  }

  /** Where `i * columns + j` falls in a rows-by-columns layout. */
  lemma GetIndex(i: nat, j: nat, rows: nat, columns: nat)
    requires columns > 0
    ensures i * columns + j < rows * columns <==> i + j / columns < rows
    ensures i + j / columns < rows ==>
      i * columns + j == Flat(i + j / columns, j % columns, rows, columns)
  {
    var q := i + j / columns;
    assert i * columns + j == q * columns + j % columns;
    if q < rows {
      FlatIndexBound(q, j % columns, rows, columns);
    } else {
      MulMonotone(rows, q, columns);
    }
  }

  /** `get(0, columns)` on a matrix of two or more rows is entry (1, 0), not absent. */
  lemma GetPastRowEnd(m: Matrix)
    requires Valid(m) && m.dimensions.rows >= 2
    ensures Get(m, 0, m.dimensions.columns) == Some(Entry(m, 1, 0))
  {
    DivModUnique(m.dimensions.columns, m.dimensions.columns, 1, 0);
  }

  /** Element read with both indices checked: absent unless i < rows and j < columns. */
  function CheckedGet(m: Matrix, i: nat, j: nat): (r: Option<real>)
    requires Valid(m)
    ensures r.Some? <==> i < m.dimensions.rows && j < m.dimensions.columns
    ensures r.Some? ==> r.value == Entry(m, i, j)
  {
    if j < m.dimensions.columns then
      DivModUnique(j, m.dimensions.columns, 0, j);
      Get(m, i, j)
    else None
  }

  /** `row(n)`: the slice `buffer[n * columns .. n * columns + columns]`, absent when it overruns. */
  function Row(m: Matrix, n: nat): (r: Option<seq<real>>)
    requires Valid(m)
    ensures r.None? <==> n >= m.dimensions.rows
    ensures r.Some? ==> r.value == Rows(m)[n]
  {
    var columns := m.dimensions.columns;
    var start := n * columns;
    RowSliceFits(m, n);
    if start + columns <= |m.buffer| then Some(m.buffer[start..start + columns]) else None
  }

  lemma RowSliceFits(m: Matrix, n: nat)
    requires Valid(m)
    ensures n * m.dimensions.columns + m.dimensions.columns <= |m.buffer| <==> n < m.dimensions.rows
    ensures n < m.dimensions.rows ==>
      m.buffer[n * m.dimensions.columns..n * m.dimensions.columns + m.dimensions.columns] == Rows(m)[n]
  {
    var rows, columns := m.dimensions.rows, m.dimensions.columns;
    if n < rows {
      MulMonotone(n + 1, rows, columns);
      var slice := m.buffer[n * columns..n * columns + columns];
      forall j | 0 <= j < columns ensures slice[j] == Rows(m)[n][j] {
        assert Flat(n, j, rows, columns) == n * columns + j;
      }
    } else {
      MulMonotone(rows, n, columns);
    }
  }

  /** `column(n)`: entries (0, n), (1, n), ...; absent when n >= columns. */
  function Column(m: Matrix, n: nat): (r: Option<seq<real>>)
    requires Valid(m)
    ensures r.None? <==> n >= m.dimensions.columns
    ensures r.Some? ==> r.value == Columns(m)[n]
  {
    if n >= m.dimensions.columns then None
    else
      var column := seq(m.dimensions.rows, i requires 0 <= i < m.dimensions.rows => Entry(m, i, n));
      assert column == Columns(m)[n];
      Some(column)
  }

  // Shape comparisons

  /** `is_same_size`: equal dimensions, so equally many rows and equally many columns. */
  function IsSameSize(a: Matrix, b: Matrix): (r: bool)
    requires Valid(a) && Valid(b)
    ensures r <==> |Rows(a)| == |Rows(b)| && |Columns(a)| == |Columns(b)|
  {
    a.dimensions == b.dimensions
  }

  /** `is_square`: as many rows as columns. */
  function IsSquare(m: Matrix): (r: bool)
    requires Valid(m)
    ensures r <==> |Rows(m)| == |Columns(m)|
  {
    m.dimensions.rows == m.dimensions.columns
  }

  /**
   * `main_diagonal()`: item k is `buffer[k * (rows + 1)]`, entry (k, k);
   * panics unless the matrix is square.
   */
  function MainDiagonal(m: Matrix): (r: Result<seq<real>>)
    requires Valid(m)
    ensures r.Ok? <==> IsSquare(m)
    ensures r.Panicked? ==> r.panic == NotSquare
    ensures r.Ok? ==> |r.value| == m.dimensions.rows
    ensures r.Ok? ==> forall k | 0 <= k < |r.value| :: r.value[k] == Entry(m, k, k)
  {
    if !IsSquare(m) then Panicked(NotSquare)
    else
      var size := m.dimensions.rows;
      Ok(seq(size, k requires 0 <= k < size => DiagonalItem(m, k)))
  }

  function DiagonalItem(m: Matrix, k: nat): (r: real)
    requires Valid(m) && IsSquare(m) && k < m.dimensions.rows
    ensures r == Entry(m, k, k)
  {
    var divisor := m.dimensions.rows + 1;
    assert k * divisor == Flat(k, k, m.dimensions.rows, m.dimensions.columns);
    m.buffer[k * divisor]
  }

  /** `PartialEq`: equal buffers and the same size, which is the same matrix. */
  function Equals(a: Matrix, b: Matrix): (r: bool)
    requires Valid(a) && Valid(b)
    ensures r <==> a == b
  {
    a.buffer == b.buffer && IsSameSize(a, b)
  }

  /** Equal matrices are those of equal dimensions whose entries agree. */
  lemma EqualsByEntries(a: Matrix, b: Matrix)
    requires Valid(a) && Valid(b)
    ensures Equals(a, b) <==> (a.dimensions == b.dimensions &&
      forall i, j | 0 <= i < a.dimensions.rows && 0 <= j < a.dimensions.columns :: Entry(a, i, j) == Entry(b, i, j))
  {
    if a.dimensions == b.dimensions &&
      forall i, j | 0 <= i < a.dimensions.rows && 0 <= j < a.dimensions.columns :: Entry(a, i, j) == Entry(b, i, j)
    {
      EntriesDetermine(a, b);
    }
  }

  // Conversion from nested rows

  /** All rows have the same length. */
  predicate Rectangular(collection: seq<seq<real>>)
  {
    forall i, j | 0 <= i < |collection| && 0 <= j < |collection| :: |collection[i]| == |collection[j]|
  }

  /**
   * `From<Vec<Vec<f64>>>`: after checking that the row lengths are all equal,
   * the dimensions are (row count, length of the first row) and the buffer
   * is the rows joined end to end.
   */
  function FromRows(collection: seq<seq<real>>): (r: Result<Matrix>)
    ensures !Rectangular(collection) ==> r == Panicked(RaggedRows)
    ensures Rectangular(collection) && |collection| == 0 ==> r == Panicked(EmptyCollection)
    ensures Rectangular(collection) && |collection| > 0 && |collection[0]| == 0 ==>
      r == Panicked(ColumnsNotPositive)
    ensures r.Ok? <==> Rectangular(collection) && |collection| > 0 && |collection[0]| > 0
    ensures r.Ok? ==> Valid(r.value) && r.value.dimensions == Dimensions(|collection|, |collection[0]|)
    ensures r.Ok? ==> forall i, j | 0 <= i < |collection| && 0 <= j < |collection[0]| ::
      Entry(r.value, i, j) == collection[i][j]
  {
    var lengths := seq(|collection|, i requires 0 <= i < |collection| => |collection[i]|);
    assert AllEqual(lengths) <==> Rectangular(collection) by {
      if AllEqual(lengths) {
        forall i, j | 0 <= i < |collection| && 0 <= j < |collection| ensures |collection[i]| == |collection[j]| {
          assert lengths[i] == lengths[j];
        }
      }
    }
    if !AllEqual(lengths) then Panicked(RaggedRows)
    else if |collection| == 0 then Panicked(EmptyCollection)
    else
      match New(|collection|, |collection[0]|)
      case Panicked(p) => Panicked(p)
      case Ok(dimensions) =>
        ConcatOfUniform(collection, |collection[0]|);
        Ok(Matrix(Concat(collection), dimensions))
  }

  /** Building from rows and reading the rows back are inverse. */
  lemma FromRowsThenRows(collection: seq<seq<real>>)
    requires FromRows(collection).Ok?
    ensures Rows(FromRows(collection).value) == collection
  {
    var m := FromRows(collection).value;
    var r := Rows(m);
    forall i | 0 <= i < |collection| ensures r[i] == collection[i] {
      assert |collection[i]| == |collection[0]|;
    }
  }

  /** Every valid matrix is rebuilt exactly from its rows. */
  lemma RowsThenFromRows(m: Matrix)
    requires Valid(m)
    ensures FromRows(Rows(m)) == Ok(m)
  {
    var rows := Rows(m);
    assert |rows[0]| == m.dimensions.columns;
    var r := FromRows(rows);
    assert r.Ok?;
    EntriesDetermine(r.value, m);
  }

  /** After building from rows, `row(i)` is input row i and `column(j)` is item j of every row. */
  lemma FromRowsRowAndColumn(collection: seq<seq<real>>, i: nat, j: nat)
    requires FromRows(collection).Ok? && i < |collection| && j < |collection[0]|
    ensures Row(FromRows(collection).value, i) == Some(collection[i])
    ensures Column(FromRows(collection).value, j) == Some(seq(|collection|, k requires 0 <= k < |collection| => collection[k][j]))
  {
    FromRowsThenRows(collection);
    var m := FromRows(collection).value;
    var expected := seq(|collection|, k requires 0 <= k < |collection| => collection[k][j]);
    assert Columns(m)[j] == expected;
  }
}
