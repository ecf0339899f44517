/** Option and Result, the failure-carrying values used across the model. */
module Wrappers {

  /** A value that may be missing, as a lookup that can fail returns it. */
  datatype Option<+T> = None | Some(value: T)

  /** The outcome of an operation that either succeeds with a value or
      fails with an error, standing in for a thrown exception. */
  datatype Result<+R, +E> = Success(value: R) | Failure(error: E)
}
