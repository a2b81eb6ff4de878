/** Option and Result, for Java's nullable values and for operations that throw. */
module Wrappers {

  /** A Java reference that may be null. */
  datatype Option<+T> = None | Some(value: T) {
    function GetOr(default: T): T {
      match this
      case Some(v) => v
      case None => default
    }
  }

  /** The value of an operation, or the exception it raised. */
  datatype Result<+T, +E> = Ok(value: T) | Err(error: E)
}
