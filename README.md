# matrix — a Dafny model of a dense real matrix library

This project models the Rust `matrix` crate (`src/lib.rs`) in Dafny and proves
properties of the model. The crate stores a matrix as a flat row-major buffer
of entries together with its `Dimensions { rows, columns }`. Entry (i, j) sits
at buffer index `i * columns + j`. On that buffer the crate provides:

- constructors: `with_value`, `zero`, `scalar`, `identity`, and `From` a
  vector of rows;
- element access: `rows`, `columns`, `get`, `row`, `column`,
  `main_diagonal`;
- shape and structure predicates: `is_same_size`, `is_row`, `is_column`,
  `is_square`, `is_diagonal`, `is_scalar`, `is_identity`,
  `is_lower_triangular`, `is_upper_triangular`;
- operators: `Add`, matrix `Mul` (built on the free function
  `dot_product`), and `PartialEq`.

Modelling choices:

- Entries are exact `real` numbers and indices are `nat`.
- Every `assert!` and every indexing panic of the crate is modelled as an
  explicit result, `Result<T> = Ok(value) | Panicked(panic)`. The `Panic`
  value names the check that fires first.
- A matrix is a `datatype`: the crate never changes a matrix after building
  it. The invariant the constructors establish is `Matrices.Valid`: positive
  dimensions and exactly `rows * columns` entries. Operations on matrices
  require it.
- Row-major positions are computed in one place, `Indexing.Flat(i, j, rows,
  columns)`. `Matrices.Entry(m, i, j)` reads entry (i, j) through it.
- The iterator adaptors the crate is built from are modelled by what they
  compute, in module `Iterators`: `chunks_exact`, `skip`/`step_by`,
  `skip`, `rev`, `concat` and itertools' `all_equal`. The module also
  defines `Take`, a helper that only the corrected upper-triangular test
  `Properties.IsUpperTriangularCorrected` uses; the crate never calls `take`.
- `Mul` is the one imperative operation: nested `for` loops pushing dot
  products onto a growing vector. It is modelled as the method
  `Operators.Mul` with the same loops. Its postcondition ties the result to
  the reference product `Operators.Product`, whose entries are the sums
  over k of left (i, k) times right (k, j).
- The crate's unit tests (`src/tests.rs`) are restated as lemmas in module
  `Scenarios`.

Files:

- `wrappers.dfy`: `Option`, `Result` and the `Panic` kinds.
- `indexing.dfy`: row-major index arithmetic.
- `iterators.dfy`: the iterator adaptors.
- `dimensions.dfy`: `Dimensions`.
- `matrix.dfy`: constructors, access, shape comparison, `From`, `PartialEq`.
- `properties.dfy`: the structure predicates.
- `operators.dfy`: `Add`, `dot_product`, `Mul`.
- `scenarios.dfy`: the unit tests, and the inputs that show `is_upper_triangular` and `get` misbehave.

## Model

| member | source | states |
|---|---|---|
| Shape.New | src/lib.rs:16-21 | Succeeds iff rows > 0 and columns > 0, with exactly those rows and columns. Otherwise panics: on rows first, then on columns. |
| Shape.Square | src/lib.rs:23-25 | A size-by-size shape for size > 0. Size 0 panics on rows. |
| Shape.FromPair | src/lib.rs:28-32 | The pair (rows, columns) becomes that shape, with the same checks and panics as `new`. |
| Matrices.WithValue | src/lib.rs:43-48 | `rows * columns` items, each equal to the value, under the given dimensions. For valid dimensions every entry (i, j) is the value. |
| Matrices.Zero | src/lib.rs:50-52 | Every entry of the given dimensions is 0. |
| Matrices.Scalar | src/lib.rs:54-70 | Panics iff the diagonal is empty. Otherwise a size-by-size valid matrix, size = diagonal length, with entry (i, j) = diagonal[i] when i = j and 0 otherwise. |
| Matrices.ScalarBufferLayout | src/lib.rs:56-64 | Buffer slot `Flat(i, j)` of the scalar buffer holds diagonal[i] on the diagonal and 0 elsewhere. This is the `i % (size + 1)` rule read back as entries. |
| Matrices.Identity | src/lib.rs:72-81 | Panics iff size = 0. Otherwise a size-by-size valid matrix with 1 on the main diagonal and 0 elsewhere. |
| Matrices.IdentityBufferLayout | src/lib.rs:73-75 | The identity buffer holds 1 at `Flat(i, i)` and 0 at every other `Flat(i, j)`. |
| Matrices.IdentityIsScalarOfOnes | src/lib.rs:54-81 | `identity(n)` equals `scalar` of n ones, panics included. |
| Matrices.EntriesDetermine | src/lib.rs:34-38 | Two valid matrices with equal dimensions and equal entries are equal. |
| Iterators.ChunksExactOfMultiple | src/lib.rs:86 | Cutting n·k items into chunks of k gives n chunks of k items, where chunk i item j is the item at `Flat(i, j, n, k)`. |
| Iterators.StepByColumn | src/lib.rs:92-97 | Skipping c < k items and then stepping by k over n·k items visits n items, where visit t is the item at `Flat(t, c, n, k)`. |
| Iterators.ConcatOfUniform | src/lib.rs:213 | Joining rows of k items gives |rows|·k items, where row i item j lands at `Flat(i, j, |rows|, k)`. |
| Matrices.Rows | src/lib.rs:85-87 | `rows` entries, each of `columns` items, with row i item j = entry (i, j). |
| Matrices.ColumnItems | src/lib.rs:91-98 | Column c read by skip/step_by has `rows` items, where item i is entry (i, c). |
| Matrices.Columns | src/lib.rs:89-100 | `columns` entries, each of `rows` items, with column j item i = entry (i, j). |
| Matrices.Get | src/lib.rs:102-106 | As written: present iff i + j / columns < rows. When present it reads entry (i + j / columns, j % columns), so a column past the end reads into a later row. |
| Matrices.GetPastRowEnd | src/lib.rs:102-106 | With two or more rows, `get(0, columns)` is entry (1, 0) and not absent. |
| Matrices.CheckedGet | src/lib.rs:102-106 | Corrected read: present iff i < rows and j < columns, and then it is entry (i, j). |
| Matrices.Row | src/lib.rs:108-113 | Absent iff n ≥ rows. Otherwise it is row n of `rows()`. |
| Matrices.RowSliceFits | src/lib.rs:109-111 | The slice `[n·columns, n·columns + columns)` fits the buffer iff n < rows, and then it is row n. |
| Matrices.Column | src/lib.rs:115-126 | Absent iff n ≥ columns. Otherwise it is column n of `columns()`. |
| Matrices.IsSameSize | src/lib.rs:143-145 | True iff both matrices have equally many rows and equally many columns, as counted by `rows()` and `columns()`. |
| Matrices.IsSquare | src/lib.rs:155-157 | True iff `rows()` and `columns()` have the same length. |
| Matrices.MainDiagonal | src/lib.rs:128-139 | Panics iff the matrix is not square. Otherwise it has `rows` items, with item k = entry (k, k). |
| Matrices.DiagonalItem | src/lib.rs:134-137 | Buffer item k·(rows + 1) is entry (k, k). |
| Matrices.Equals | src/lib.rs:286-290 | Equal buffers and the same size hold iff the two matrices are the same value. |
| Matrices.EqualsByEntries | src/lib.rs:286-290 | Equality holds iff the dimensions are equal and every entry agrees. |
| Matrices.FromRows | src/lib.rs:203-216 | Ragged rows panic first, then an empty list, then rows of length 0. Succeeds iff rectangular, nonempty, with a nonempty first row, giving dimensions (row count, first-row length) and entry (i, j) = input row i item j. |
| Matrices.FromRowsThenRows | src/lib.rs:203-216 | Building from rows and then calling `rows()` gives the input back. |
| Matrices.RowsThenFromRows | src/lib.rs:203-216 | Every valid matrix is rebuilt exactly from its `rows()`. |
| Matrices.FromRowsRowAndColumn | src/lib.rs:203-216 | After building from rows, `row(i)` is input row i and `column(j)` is item j of every input row. |
| Properties.IsColumn | src/lib.rs:147-149 | True iff `columns()` has exactly one column. |
| Properties.IsRow | src/lib.rs:151-153 | True iff `rows()` has exactly one row. |
| Properties.IsDiagonal | src/lib.rs:184-196 | Panics iff not square. Otherwise, true iff every entry off the main diagonal is 0. |
| Properties.DiagonalTest | src/lib.rs:191-195 | Testing "index is a multiple of columns + 1, or the item is 0" over the buffer is equivalent to "every off-diagonal entry is 0". |
| Properties.IsLowerTriangular | src/lib.rs:175-182 | Panics iff not square. Otherwise, true iff every entry above the main diagonal is 0. |
| Properties.LowerTest | src/lib.rs:181 | Skipping i + 1 items of each row i and finding only zeros is equivalent to zeros above the diagonal. |
| Properties.IsUpperTriangular | src/lib.rs:164-173 | As written: panics iff not square. Otherwise, true iff every entry ABOVE the main diagonal is 0, so it always equals `is_lower_triangular`. |
| Properties.ReversedSkips | src/lib.rs:172 | In reversed row order, skipping size − i items of reversed row i tests the same items as skipping i + 1 items of row i. |
| Properties.IsUpperTriangularCorrected | src/lib.rs:164-173 | Corrected test (first i items of row i): panics iff not square. Otherwise, true iff every entry below the main diagonal is 0. |
| Properties.UpperTest | src/lib.rs:164-173 | Finding only zeros in the first i items of each row i is equivalent to zeros below the diagonal. |
| Properties.IsScalar | src/lib.rs:159-162 | Panics iff not square, in `is_diagonal` before the diagonal is read. Otherwise, true iff off-diagonal entries are 0 and all main-diagonal entries are equal. |
| Properties.IsIdentity | src/lib.rs:198-200 | True iff the matrix is square with 1 on the main diagonal and 0 elsewhere. |
| Properties.DiagonalIffBothTriangular | src/lib.rs:164-196 | A square matrix is diagonal iff it is lower triangular and (corrected) upper triangular. |
| Properties.MainDiagonalOfScalar | src/lib.rs:128-139 | The main diagonal of `scalar(d)` is d. |
| Properties.DiagonalIsScalarOfMainDiagonal | src/lib.rs:184-196 | A diagonal matrix equals `scalar` of its own main diagonal. |
| Properties.ScalarClassification | src/lib.rs:159-196 | `scalar(d)` is diagonal and triangular both ways. It is scalar iff all items of d are equal. |
| Properties.IdentityClassification | src/lib.rs:147-200 | `identity(n)` is square, identity, diagonal, scalar, and triangular both ways (as written and corrected). It is a row, and a column, iff n = 1. |
| Operators.Add | src/lib.rs:219-240 | Panics iff the sizes differ. Otherwise the result has the left operand's dimensions and entry (i, j) = a(i, j) + b(i, j). |
| Operators.AddCommutative | src/lib.rs:219-240 | `a + b = b + a`, panics included. |
| Operators.AddAssociative | src/lib.rs:219-240 | `(a + b) + c = a + (b + c)` for matrices of one size. |
| Operators.AddZero | src/lib.rs:219-240 | Adding `zero` of the same dimensions, on either side, gives the matrix back. |
| Operators.DotProductTruncates | src/lib.rs:242-248 | `dot_product` zips its operands, so for operands of any lengths it equals the dot product of their first n items, n the shorter length. |
| Operators.DotProductIsPairSum | src/lib.rs:242-248 | For operands of any lengths, `dot_product` is the sum of first[k]·second[k] over k below the shorter length. |
| Operators.DotProductSnoc | src/lib.rs:242-248 | The dot product of equal-length vectors grows by the product of their last items. |
| Operators.DotProductSymmetric | src/lib.rs:242-248 | The dot product does not depend on operand order. |
| Operators.PrefixTimesPrefix | src/lib.rs:242-248 | The dot product of the first n items of two vectors is the sum over k < n of their k-th products. |
| Operators.RowTimesColumn | src/lib.rs:272-275 | `dot_product(row(i), column(j))` is the sum over k of a(i, k)·b(k, j). |
| Operators.Product | src/lib.rs:251-284 | Reference product: it succeeds iff left columns = right rows, otherwise panics. The result is a valid (left rows)-by-(right columns) matrix whose entry (i, j) is the sum over k of a(i, k)·b(k, j). |
| Operators.Mul | src/lib.rs:251-284 | The nested loops of `mul` return exactly the reference product, the panic included. |
| Operators.MulStep | src/lib.rs:270-277 | Pushing the dot product for (i, j) extends the buffer built so far, the first i·columns + j items of the product, by its next item. |
| Operators.MulIdentity | src/lib.rs:251-284 | Multiplying by the identity of the matching size, on either side, gives the matrix back. |
| Scenarios.RowAndColumnWork | src/tests.rs:4-33 | For the test matrix, `row(i)` is input row i and `column(i)` is item i of each input row. |
| Scenarios.AdditionOfConstant | src/tests.rs:35-54 | The constant-5 matrix plus the test matrix equals the expected matrix. |
| Scenarios.AdditionOfIdentity | src/tests.rs:56-70 | The constant-5 matrix plus `identity(3)` has 6 on the diagonal and 5 elsewhere. |
| Scenarios.MultiplicationOfControlledMatrices | src/tests.rs:72-88 | The 3-by-2 times 2-by-3 product of the test equals the expected matrix. |
| Scenarios.BaseClassification | src/tests.rs:90-173 | The test matrix is square, and is no row, column, diagonal, scalar, identity or triangular matrix. |
| Scenarios.NonzeroBothSides | src/tests.rs:90-173 | Every square matrix with nonzero entries (0, 1) and (1, 0) fails every structure test. |
| Scenarios.IdentityFiveClassification | src/tests.rs:175-223 | `identity(5)` is square, diagonal, scalar, identity and triangular, and is no row or column. |
| Scenarios.ColumnAndRowShapes | src/tests.rs:225-247 | A 3-by-1 matrix is a column and not square. A 1-by-3 matrix is a row. |
| Scenarios.FromRowsPanics | src/lib.rs:203-216 | Ragged rows, an empty list and empty rows each panic, with their own panic kind. |
| Scenarios.UpperTriangularAcceptsLower | src/lib.rs:172 | As written, `is_upper_triangular([[1, 0], [2, 1]])` is true. The corrected test gives false. |
| Scenarios.UpperTriangularRejectsUpper | src/lib.rs:172 | As written, `is_upper_triangular([[1, 2], [0, 1]])` is false. The corrected test gives true. |
| Scenarios.GetPastRowEndOnBase | src/lib.rs:102-106 | On the test matrix, `get(0, 3)` is 2, the entry (1, 0). The checked read is absent. |

## Left out

- Floating point: entries are exact reals. NaN, infinities, −0.0 and IEEE
  rounding are not modelled. `PartialEq` on `f64` is modelled as exact
  equality.
- `usize` overflow in `rows * columns`, `i * columns + j` and `size * size`
  is not modelled: indices are unbounded naturals.
- The `dimensions` field of `Matrix` and both fields of `Dimensions` are
  `pub` in the crate. Outside code could therefore build a matrix whose
  buffer length does not match its dimensions. The model instead requires
  `Valid`, the invariant every constructor of the crate establishes.
- `Mul` on such an invalid matrix could panic in `row(..).unwrap()`. Under
  `Valid` it never does, so that panic path is not modelled.
- Panic messages, `Debug`, `Clone`, `Copy`, and the ownership and borrowing
  distinctions (`get` returning a reference, `Add`/`Mul` consuming their
  operands) are not modelled.
- `Vec::with_capacity` and the shadowed `Vec::new()` in `mul` only affect
  allocation, so they are not modelled.
- Operations this version of the crate does not have are not modelled:
  determinant, transpose, element write, subtraction, scalar multiply and
  divide, secondary diagonal.
- This code panics in several places where a `Result`-returning API would
  return an error, nothing, or `false`: the structure tests on a non-square
  matrix, `main_diagonal`, shape mismatches in `Add` and `Mul`, and `From`
  with ragged or empty rows. The model keeps the panics. `scalar` takes the
  whole diagonal vector, not a (value, size) pair, and is modelled that way.
- Properties.IsUpperTriangular: modelled as written. Its contract states
  what the code actually tests (entries above the diagonal), which is not
  what the name promises. The intended behaviour is
  Properties.IsUpperTriangularCorrected (see Findings).
- Matrices.Get: modelled as written, without a column check. The intended
  behaviour is Matrices.CheckedGet (see Findings).

## Findings

| source | as written | input that shows it | evidently intended | confidence | as-written member | corrected member |
|---|---|---|---|---|---|---|
| src/lib.rs:172 | `is_upper_triangular` walks the rows in reverse and skips `size - i` items of reversed row i. That is row size − 1 − i skipping its first (row index + 1) items, so it tests the entries above the diagonal, exactly as `is_lower_triangular` does. | `[[1, 0], [2, 1]]` returns true although 2 lies below the diagonal. `[[1, 2], [0, 1]]` returns false although it is upper triangular. | True iff every entry below the main diagonal is 0. | high; not executed | Properties.IsUpperTriangular, with Scenarios.UpperTriangularAcceptsLower and Scenarios.UpperTriangularRejectsUpper | Properties.IsUpperTriangularCorrected |
| src/lib.rs:102-106 | `get(i, j)` reads buffer index `i * columns + j` and only checks that this index lies inside the buffer, never that j < columns. | On a 3-by-3 matrix, `get(0, 3)` returns entry (1, 0) instead of nothing. | Present iff i < rows and j < columns, and then entry (i, j). | medium; not executed | Matrices.Get, with Matrices.GetPastRowEnd and Scenarios.GetPastRowEndOnBase | Matrices.CheckedGet |
