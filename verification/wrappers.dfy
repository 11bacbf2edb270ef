/** Option, Result and Outcome: the shapes the model uses for Go's `(value, error)` returns. */
module Wrappers {

  datatype Option<+T> = None | Some(value: T)

  /** A value, or the error that stopped the operation producing it. */
  datatype Result<+T, +E> = Success(value: T) | Failure(error: E)

  /** Success without a value, or the error: Go's bare `error` return. */
  datatype Outcome<+E> = Pass | Fail(error: E)
}
