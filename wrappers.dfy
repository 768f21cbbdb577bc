/** Option and Result, the two failure wrappers the rest of the model uses. */
module Wrappers {

  datatype Option<+T> = None | Some(value: T) {
    /** The wrapped value, or `default` when there is none (JavaScript's `x ?? default`). */
    function GetOr(default: T): T {
      match this
      case Some(v) => v
      case None => default
    }
  }

  /** The outcome of a request handler: a payload, or the error response it returns. */
  datatype Result<+R, +E> = Ok(value: R) | Err(error: E)
}
