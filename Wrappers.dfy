/** Optional values and results with an error, used across the model. */
module Wrappers {

  /** A value that may be missing: JavaScript's `undefined` (or an absent JSON field). */
  datatype Option<+T> = None | Some(value: T) {
    function GetOr(default: T): T {
      match this
      case Some(v) => v
      case None => default
    }
  }

  /** The outcome of a validation or a request handler. */
  datatype Result<+T, +E> = Ok(value: T) | Err(error: E)
}
