/** Failure-compatible wrappers used across the model. */
module Wrappers {

  /** A value that may be absent, such as an optional JSON field. */
  datatype Option<+T> = None | Some(value: T) {

    /** The wrapped value, or `default` when absent (Python's `dict.get(key, default)`). */
    function GetOr(default: T): T
    {
      match this
      case Some(v) => v
      case None => default
    }
  }

  /** Either a value or the reason the program gives up. */
  datatype Result<+R, +E> = Success(value: R) | Failure(error: E)
}
