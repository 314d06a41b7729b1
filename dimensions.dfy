/** The shape of a matrix: `Dimensions { rows, columns }`. */
module Shape {
  import opened Wrappers

  datatype Dimensions = Dimensions(rows: nat, columns: nat) {
    /** What `Dimensions::new` guarantees of every value it returns. */
    predicate Valid() {
      rows > 0 && columns > 0
    }
  }

  /**
   * `Dimensions::new`: a shape with the given rows and columns, or a panic
   * when either is zero (rows are checked first).
   */
  function New(rows: nat, columns: nat): (r: Result<Dimensions>)
    ensures r.Ok? <==> rows > 0 && columns > 0
    ensures r.Ok? ==> r.value.Valid() && r.value.rows == rows && r.value.columns == columns
    ensures r.Panicked? ==> r.panic == (if rows == 0 then RowsNotPositive else ColumnsNotPositive)
  {
    if rows == 0 then Panicked(RowsNotPositive)
    else if columns == 0 then Panicked(ColumnsNotPositive)
    else Ok(Dimensions(rows, columns))
  }

  /** `Dimensions::square`: a size-by-size shape; panics for size 0. */
  function Square(size: nat): (r: Result<Dimensions>)
    ensures r.Ok? <==> size > 0
    ensures r.Ok? ==> r.value.Valid() && r.value == Dimensions(size, size)
    ensures r.Panicked? ==> r.panic == RowsNotPositive
  {
    New(size, size)
  }

  /** `From<(usize, usize)>`: the pair (rows, columns), checked as by `Dimensions::new`. */
  function FromPair(pair: (nat, nat)): (r: Result<Dimensions>)
    ensures r.Ok? <==> pair.0 > 0 && pair.1 > 0
    ensures r.Ok? ==> r.value.Valid() && (r.value.rows, r.value.columns) == pair
    ensures r.Panicked? ==> r.panic == (if pair.0 == 0 then RowsNotPositive else ColumnsNotPositive)
  {
    New(pair.0, pair.1)
  }
}
