/** Failure-carrying results shared by the other modules. */
module Wrappers {
  /** A value that may be absent (a header that is not set, a JavaScript `undefined` field). */
  datatype Option<+T> = None | Some(value: T)

  /** The outcome of an operation that either produces a value or throws an error. */
  datatype Result<+T, +E> = Success(value: T) | Failure(error: E)
}
