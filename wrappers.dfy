/** Failure-compatible wrappers for the source's `null` results and thrown errors. */
module Wrappers {

  /** A value that may be missing: the source's `T | null` (or `undefined`). */
  datatype Option<+T> = None | Some(value: T) {
    function GetOr(default: T): T {
      match this
      case Some(v) => v
      case None => default
    }
  }

  /** A result or an error: a function that either returns or throws. */
  datatype Result<+R, +E> = Success(value: R) | Failure(error: E)
}
