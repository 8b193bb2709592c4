/** Option, outcome and result datatypes shared by the other modules. */
module Wrappers {

  /** A value that may be absent (JavaScript's `undefined`). */
  datatype Option<+T> = None | Some(value: T)

  /** The outcome of an operation that either completes or fails with an error. */
  datatype Outcome<+E> = Pass | Fail(error: E)

  /** A value or the error an asynchronous handler rejects with. */
  datatype Result<+T, +E> = Success(value: T) | Failure(error: E)
}
