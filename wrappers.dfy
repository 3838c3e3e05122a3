/** Option and Result, the failure-compatible wrappers the rest of the model uses. */
module Wrappers {

  /** A value that may be absent: Python's `None` or a missing dictionary key. */
  datatype Option<+T> = None | Some(value: T) {

    /** The value, or `default` when absent (Python's `d.get(key, default)`). */
    function GetOr(default: T): T {
      match this
      case Some(v) => v
      case None => default
    }
  }

  /** Either a value or the error that a raised exception would carry. */
  datatype Result<+T, +E> = Success(value: T) | Failure(error: E)
}
