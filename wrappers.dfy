/** Failure-carrying values that stand for the source's `null` results and thrown errors. */
module Wrappers {

  /** `Some(v)` or the source's `null`/`undefined`. */
  datatype Option<+T> = None | Some(value: T) {
    /** The `??` operator: the value if present, otherwise `default`. */
    function GetOr(default: T): T {
      match this
      case Some(v) => v
      case None => default
    }
  }

  /** The value an operation returns, or the error it throws. */
  datatype Result<+R, +E> = Success(value: R) | Failure(error: E)

  /** Completion of an operation that returns nothing, or the error it throws. */
  datatype Outcome<+E> = Pass | Fail(error: E)
}
