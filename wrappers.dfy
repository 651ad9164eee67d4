/** Optional values and results with an error branch, used throughout the model. */
module Wrappers {

  datatype Option<+T> = None | Some(value: T) {
    /** The value, or `default` when there is none (Python's `x or default` for None). */
    function GetOr(default: T): T {
      match this
      case Some(v) => v
      case None => default
    }
  }

  /** A computation that either succeeds with a value or fails with an error kind. */
  datatype Result<+T, +E> = Ok(value: T) | Err(error: E)
}
