/** Optional values and the outcome of an operation that may panic. */
module Wrappers {

  datatype Option<+T> = None | Some(value: T)

  /** Which of the library's run-time checks stopped the program. */
  datatype Panic =
    | RowsNotPositive        // `Dimensions::new` with rows == 0
    | ColumnsNotPositive     // `Dimensions::new` with columns == 0
    | NotSquare              // a square-only query on a non-square matrix
    | RaggedRows             // building from rows of different lengths
    | EmptyCollection        // building from no rows: `collection[0]` is out of bounds
    | DimensionsDiffer       // adding matrices of different dimensions
    | InnerDimensionsDiffer  // multiplying when left columns != right rows

  /** The value an operation returns, or the panic it raises instead. */
  datatype Result<+T> = Ok(value: T) | Panicked(panic: Panic)
}
