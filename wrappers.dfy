/** Option and Result: a nullable cell and the outcome of an operation that can raise. */
module Wrappers {

  /** A nullable value: `None` is a SQL/Spark null or a Python `None`. */
  datatype Option<+T> = None | Some(value: T)

  /** Either a value or the error an operation raises. */
  datatype Result<+R, +E> = Success(value: R) | Failure(error: E)
}
