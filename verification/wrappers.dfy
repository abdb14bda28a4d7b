/** Optional values and call results, shared by every module of the model. */
module Wrappers {

  /** A value that may be absent: JavaScript's `undefined`, or `NaN` for a number. */
  datatype Option<+T> = None | Some(value: T) {

    /** The wrapped value, or `default` when absent (JavaScript's `x || default` for non-zero values). */
    function GetOr(default: T): T {
      match this
      case Some(v) => v
      case None => default
    }
  }

  /** Either the new state / value of a successful call, or the error response it returned. */
  datatype Result<+T, +E> = Ok(value: T) | Err(error: E)
}
