/** Option and Result: the "undefined" values and the thrown errors of the widget's code. */
module Wrappers {

  /** A value that may be missing (a JavaScript `undefined` or an absent key). */
  datatype Option<+T> = None | Some(value: T) {
    function GetOr(default: T): T {
      match this
      case Some(v) => v
      case None => default
    }
  }

  /** The outcome of an operation that may throw. */
  datatype Result<+T, +E> = Ok(value: T) | Err(error: E)
}
