/** Option and Result datatypes: absent values and typed error returns. */
module Wrappers {

  /** A value that may be absent (JavaScript's `undefined`, `null`, `-1` from `indexOf`). */
  datatype Option<+T> = None | Some(value: T) {

    /** The wrapped value, or `default` when absent. */
    function GetOr(default: T): T {
      match this
      case Some(v) => v
      case None => default
    }
  }

  /** The outcome of an operation that either succeeds or reports an error. */
  datatype Result<+R, +E> = Success(value: R) | Failure(error: E)
}
