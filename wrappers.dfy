/** Optional values and operation outcomes shared by every module of the model. */
module Wrappers {

  /** A value that may be absent: JavaScript's `undefined`/`null` on one side, a value on the other. */
  datatype Option<+T> = None | Some(value: T)

  /** The outcome of an operation that either succeeds with a value or fails with an error
      (a thrown `Error` or an error message shown by a screen). */
  datatype Result<+T, +E> = Success(value: T) | Failure(error: E)
}
