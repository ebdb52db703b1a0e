/** Failure-carrying result types used across the model (Go's `(T, error)` and
    bare `error` returns, and Go's nil-able pointers). */
module Wrappers {

  datatype Option<+T> = None | Some(value: T) {
    function GetOr(default: T): T {
      match this
      case Some(v) => v
      case None => default
    }
  }

  /** A value or an error: Go's `(T, error)` pair where exactly one side is meaningful. */
  datatype Result<+T, +E> = Success(value: T) | Failure(error: E)

  /** Go's bare `error` return: nil (Pass) or an error value. */
  datatype Outcome<+E> = Pass | Fail(error: E)
}
