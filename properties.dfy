/** The structural predicates of a matrix: `is_row`, `is_diagonal`, `is_identity`, ... */
module Properties {
  import opened Wrappers
  import opened Shape
  import opened Indexing
  import opened Iterators
  import opened Matrices

  /** Every entry off the main diagonal of a square matrix is 0. */
  predicate OffDiagonalZero(m: Matrix)
    requires Valid(m)
  {
    forall i, j | 0 <= i < m.dimensions.rows && 0 <= j < m.dimensions.columns && i != j :: Entry(m, i, j) == 0.0
  }

  /** Every entry with column index greater than its row index is 0. */
  predicate ZeroAboveDiagonal(m: Matrix)
    requires Valid(m)
  {
    forall i, j | 0 <= i < j < m.dimensions.columns && i < m.dimensions.rows :: Entry(m, i, j) == 0.0
  }

  /** Every entry with column index less than its row index is 0. */
  predicate ZeroBelowDiagonal(m: Matrix)
    requires Valid(m)
  {
    forall i, j | 0 <= j < i < m.dimensions.rows && j < m.dimensions.columns :: Entry(m, i, j) == 0.0
  }

  /** `is_column`: a single column. */
  function IsColumn(m: Matrix): (r: bool)
    requires Valid(m)
    ensures r <==> |Columns(m)| == 1
  {
    m.dimensions.columns == 1
  }

  /** `is_row`: a single row. */
  function IsRow(m: Matrix): (r: bool)
    requires Valid(m)
    ensures r <==> |Rows(m)| == 1
  {
    m.dimensions.rows == 1
  }

  /**
   * `is_diagonal`: every buffer item whose index is not a multiple of
   * columns + 1 is 0, which is every entry off the main diagonal; panics
   * unless the matrix is square.
   */
  function IsDiagonal(m: Matrix): (r: Result<bool>)
    requires Valid(m)
    ensures r.Ok? <==> IsSquare(m)
    ensures r.Panicked? ==> r.panic == NotSquare
    ensures r.Ok? ==> (r.value <==> OffDiagonalZero(m))
  {
    if !IsSquare(m) then Panicked(NotSquare)
    else
      var divisor := m.dimensions.columns + 1;
      DiagonalTest(m);
      Ok(SlotsOffDivisorZero(m.buffer, divisor))
  }

  /** The test `is_diagonal` runs over the buffer, with divisor `divisor`. */
  predicate SlotsOffDivisorZero(buffer: seq<real>, divisor: nat)
    requires divisor > 0
  {
    forall index | 0 <= index < |buffer| :: index % divisor == 0 || buffer[index] == 0.0
  }

  lemma DiagonalTest(m: Matrix)
    requires Valid(m) && IsSquare(m)
    ensures SlotsOffDivisorZero(m.buffer, m.dimensions.columns + 1) <==> OffDiagonalZero(m)
  {
    if SlotsOffDivisorZero(m.buffer, m.dimensions.columns + 1) {
      DiagonalTestSound(m);
    }
    if OffDiagonalZero(m) {
      DiagonalTestComplete(m);
    }
  }

  lemma DiagonalTestSound(m: Matrix)
    requires Valid(m) && IsSquare(m) && SlotsOffDivisorZero(m.buffer, m.dimensions.columns + 1)
    ensures OffDiagonalZero(m)
  {
    var n := m.dimensions.rows;
    forall i, j | 0 <= i < n && 0 <= j < n && i != j ensures Entry(m, i, j) == 0.0 {
      DiagonalIndex(n, i, j);
      var k := Flat(i, j, n, n);
      assert k % (n + 1) != 0;
      assert m.buffer[k] == 0.0;
    }
  }

  lemma DiagonalTestComplete(m: Matrix)
    requires Valid(m) && IsSquare(m) && OffDiagonalZero(m)
    ensures SlotsOffDivisorZero(m.buffer, m.dimensions.columns + 1)
  {
    var n := m.dimensions.rows;
    forall index | 0 <= index < |m.buffer| ensures index % (n + 1) == 0 || m.buffer[index] == 0.0 {
      var i, j := DiagonalSlot(n, index);
      assert m.buffer[index] == Entry(m, i, j);
    }
  }

  /** Every row i is zero past its own index: entries i + 1, i + 2, ... of it are 0. */
  predicate ZeroPastIndex(rows: seq<seq<real>>)
  {
    forall i | 0 <= i < |rows| :: AllZero(Skip(rows[i], i + 1))
  }

  /** Every row i is zero before its own index: its first i entries are 0. */
  predicate ZeroBeforeIndex(rows: seq<seq<real>>)
  {
    forall i | 0 <= i < |rows| :: AllZero(Take(rows[i], i))
  }

  /** Every row i of `reversed` is zero once its first size - i entries are skipped. */
  predicate ReversedZeroPastSize(reversed: seq<seq<real>>, size: nat)
    requires |reversed| <= size
  {
    forall i | 0 <= i < |reversed| :: AllZero(Skip(reversed[i], size - i))
  }

  /**
   * `is_lower_triangular`: row i skips its first i + 1 entries and the rest
   * are 0, so every entry above the main diagonal is 0; panics unless the
   * matrix is square.
   */
  function IsLowerTriangular(m: Matrix): (r: Result<bool>)
    requires Valid(m)
    ensures r.Ok? <==> IsSquare(m)
    ensures r.Panicked? ==> r.panic == NotSquare
    ensures r.Ok? ==> (r.value <==> ZeroAboveDiagonal(m))
  {
    if !IsSquare(m) then Panicked(NotSquare)
    else
      LowerTest(m);
      Ok(ZeroPastIndex(Rows(m)))
  }

  lemma LowerTest(m: Matrix)
    requires Valid(m) && IsSquare(m)
    ensures ZeroPastIndex(Rows(m)) <==> ZeroAboveDiagonal(m)
  {
    var rows := Rows(m);
    var n := m.dimensions.rows;
    if ZeroPastIndex(rows) {
      forall i, j | 0 <= i < j < n ensures Entry(m, i, j) == 0.0 {
        assert Skip(rows[i], i + 1)[j - (i + 1)] == rows[i][j];
      }
    }
    if ZeroAboveDiagonal(m) {
      forall i | 0 <= i < n ensures AllZero(Skip(rows[i], i + 1)) {
        var tail := Skip(rows[i], i + 1);
        forall k | 0 <= k < |tail| ensures tail[k] == 0.0 {
          assert tail[k] == Entry(m, i, i + 1 + k);
        }
      }
    }
  }

  /**
   * `is_upper_triangular` as written: the rows are walked in reverse and
   * reversed row i (row size - 1 - i) skips its first size - i entries. That
   * tests the entries above the main diagonal, exactly as
   * `is_lower_triangular` does; panics unless the matrix is square.
   */
  function IsUpperTriangular(m: Matrix): (r: Result<bool>)
    requires Valid(m)
    ensures r.Ok? <==> IsSquare(m)
    ensures r.Panicked? ==> r.panic == NotSquare
    ensures r.Ok? ==> (r.value <==> ZeroAboveDiagonal(m))
    ensures r == IsLowerTriangular(m)
  {
    if !IsSquare(m) then Panicked(NotSquare)
    else
      var size := m.dimensions.rows;
      ReversedSkips(Rows(m), size);
      LowerTest(m);
      Ok(ReversedZeroPastSize(Reverse(Rows(m)), size))
  }

  /** Reversed row i skipping size - i entries is row size - 1 - i skipping its index + 1. */
  lemma ReversedSkips(rows: seq<seq<real>>, size: nat)
    requires |rows| == size
    ensures |Reverse(rows)| == size
    ensures ReversedZeroPastSize(Reverse(rows), size) <==> ZeroPastIndex(rows)
  {
    if ReversedZeroPastSize(Reverse(rows), size) {
      ReversedSkipsSound(rows, size);
    }
    if ZeroPastIndex(rows) {
      ReversedSkipsComplete(rows, size);
    }
  }

  lemma ReversedSkipsSound(rows: seq<seq<real>>, size: nat)
    requires |rows| == size && ReversedZeroPastSize(Reverse(rows), size)
    ensures ZeroPastIndex(rows)
  {
    var reversed := Reverse(rows);
    forall r | 0 <= r < size ensures AllZero(Skip(rows[r], r + 1)) {
      var i := size - 1 - r;
      assert reversed[i] == rows[r];
      assert AllZero(Skip(reversed[i], size - i));
    }
  }

  lemma ReversedSkipsComplete(rows: seq<seq<real>>, size: nat)
    requires |rows| == size && ZeroPastIndex(rows)
    ensures |Reverse(rows)| == size && ReversedZeroPastSize(Reverse(rows), size)
  {
    var reversed := Reverse(rows);
    forall i | 0 <= i < size ensures AllZero(Skip(reversed[i], size - i)) {
      var r := size - 1 - i;
      assert reversed[i] == rows[r];
      assert AllZero(Skip(rows[r], r + 1));
    }
  }

  /**
   * Upper triangularity as intended: row i keeps its first i entries and
   * they are 0, so every entry below the main diagonal is 0; panics unless
   * the matrix is square.
   */
  function IsUpperTriangularCorrected(m: Matrix): (r: Result<bool>)
    requires Valid(m)
    ensures r.Ok? <==> IsSquare(m)
    ensures r.Panicked? ==> r.panic == NotSquare
    ensures r.Ok? ==> (r.value <==> ZeroBelowDiagonal(m))
  {
    if !IsSquare(m) then Panicked(NotSquare)
    else
      UpperTest(m);
      Ok(ZeroBeforeIndex(Rows(m)))
  }

  lemma UpperTest(m: Matrix)
    requires Valid(m) && IsSquare(m)
    ensures ZeroBeforeIndex(Rows(m)) <==> ZeroBelowDiagonal(m)
  {
    var rows := Rows(m);
    var n := m.dimensions.rows;
    if ZeroBeforeIndex(rows) {
      forall i, j | 0 <= j < i < n ensures Entry(m, i, j) == 0.0 {
        assert Take(rows[i], i)[j] == rows[i][j];
      }
    }
    if ZeroBelowDiagonal(m) {
      forall i | 0 <= i < n ensures AllZero(Take(rows[i], i)) {
        var head := Take(rows[i], i);
        forall k | 0 <= k < |head| ensures head[k] == 0.0 {
          assert head[k] == Entry(m, i, k);
        }
      }
    }
  }

  /**
   * `is_scalar`: diagonal, with all main-diagonal entries equal; panics
   * (in `is_diagonal`, before the diagonal is read) unless the matrix is square.
   */
  function IsScalar(m: Matrix): (r: Result<bool>)
    requires Valid(m)
    ensures r.Ok? <==> IsSquare(m)
    ensures r.Panicked? ==> r.panic == NotSquare
    ensures r.Ok? ==> (r.value <==> (OffDiagonalZero(m) &&
      forall i, j | 0 <= i < m.dimensions.rows && 0 <= j < m.dimensions.rows :: Entry(m, i, i) == Entry(m, j, j)))
  {
    match IsDiagonal(m)
    case Panicked(p) => Panicked(p)
    case Ok(diagonal) =>
      match MainDiagonal(m)
      case Panicked(p) => Panicked(p)
      case Ok(entries) => Ok(diagonal && AllEqual(entries))
  }

  /**
   * `is_identity`: equal to `identity(rows)`. So it holds exactly of the
   * square matrices with 1 on the main diagonal and 0 elsewhere.
   */
  function IsIdentity(m: Matrix): (r: bool)
    requires Valid(m)
    ensures r <==> (IsSquare(m) &&
      forall i, j | 0 <= i < m.dimensions.rows && 0 <= j < m.dimensions.rows ::
        Entry(m, i, j) == if i == j then 1.0 else 0.0)
  {
    var identity := Identity(m.dimensions.rows).value;
    EqualsByEntries(m, identity);
    Equals(m, identity)
  }

  // Relations between the predicates and the constructors

  /** A diagonal matrix has both kinds of triangularity, and conversely. */
  lemma DiagonalIffBothTriangular(m: Matrix)
    requires Valid(m) && IsSquare(m)
    ensures IsDiagonal(m).value <==> IsLowerTriangular(m).value && IsUpperTriangularCorrected(m).value
  {
  }

  /** The main diagonal of `scalar(d)` is d. */
  lemma MainDiagonalOfScalar(diagonal: seq<real>)
    requires |diagonal| > 0
    ensures MainDiagonal(Scalar(diagonal).value) == Ok(diagonal)
  {
    var m := Scalar(diagonal).value;
    assert IsSquare(m);
    var d := MainDiagonal(m).value;
    assert forall k | 0 <= k < |diagonal| :: d[k] == diagonal[k];
    assert d == diagonal;
  }

  /** A diagonal matrix is `scalar` of its own main diagonal. */
  lemma DiagonalIsScalarOfMainDiagonal(m: Matrix)
    requires Valid(m) && IsDiagonal(m) == Ok(true)
    ensures Scalar(MainDiagonal(m).value) == Ok(m)
  {
    var s := Scalar(MainDiagonal(m).value).value;
    forall i, j | 0 <= i < m.dimensions.rows && 0 <= j < m.dimensions.columns ensures Entry(s, i, j) == Entry(m, i, j) {
      if i != j { assert Entry(m, i, j) == 0.0; }
    }
    EntriesDetermine(s, m);
  }

  /** `scalar(d)` is diagonal, and scalar exactly when the items of d are all equal. */
  lemma ScalarClassification(diagonal: seq<real>)
    requires |diagonal| > 0
    ensures IsDiagonal(Scalar(diagonal).value) == Ok(true)
    ensures IsScalar(Scalar(diagonal).value) == Ok(AllEqual(diagonal))
    ensures IsLowerTriangular(Scalar(diagonal).value) == Ok(true)
    ensures IsUpperTriangularCorrected(Scalar(diagonal).value) == Ok(true)
  {
    var m := Scalar(diagonal).value;
    var n := |diagonal|;
    assert OffDiagonalZero(m);
    assert ZeroAboveDiagonal(m);
    assert ZeroBelowDiagonal(m);
    if AllEqual(diagonal) {
      forall i, j | 0 <= i < n && 0 <= j < n ensures Entry(m, i, i) == Entry(m, j, j) {
        assert diagonal[i] == diagonal[j];
      }
    } else {
      var i, j :| 0 <= i < n && 0 <= j < n && diagonal[i] != diagonal[j];
      assert Entry(m, i, i) != Entry(m, j, j);
    }
  }

  /** `identity(n)` is square, diagonal, scalar, identity and triangular both ways. */
  lemma IdentityClassification(size: nat)
    requires size > 0
    ensures IsSquare(Identity(size).value) && IsIdentity(Identity(size).value)
    ensures IsDiagonal(Identity(size).value) == Ok(true)
    ensures IsScalar(Identity(size).value) == Ok(true)
    ensures IsLowerTriangular(Identity(size).value) == Ok(true)
    ensures IsUpperTriangular(Identity(size).value) == Ok(true)
    ensures IsUpperTriangularCorrected(Identity(size).value) == Ok(true)
    ensures IsRow(Identity(size).value) <==> size == 1
    ensures IsColumn(Identity(size).value) <==> size == 1
  {
    var ones := seq(size, _ => 1.0);
    IdentityIsScalarOfOnes(size);
    ScalarClassification(ones);
  }
}
