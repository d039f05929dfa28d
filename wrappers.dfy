/** Option and Result, the two failure-carrying datatypes the model uses. */
module Wrappers {

  /** A value that may be missing: a SQL NULL, or a query that returned no row. */
  datatype Option<+T> = None | Some(value: T)

  /** The outcome of a workflow that the application can refuse with a message. */
  datatype Result<+R, +E> = Success(value: R) | Failure(error: E)
}
