/** Option and Result, the two failure-carrying datatypes the model uses. */
module Wrappers {

  datatype Option<+T> = None | Some(value: T)

  /** A computation that either succeeds with a value or fails with an error, as a
      JavaScript function that returns or throws. */
  datatype Result<+T, +E> = Success(value: T) | Failure(error: E)
}
