/** Option and Result values standing for Java's nullable references and thrown exceptions. */
module Wrappers {

  /** A value that may be absent: `None` models a Java `null`. */
  datatype Option<+T> = None | Some(value: T) {
    function GetOr(default: T): T {
      match this
      case Some(v) => v
      case None => default
    }
  }

  /** The outcome of an operation that may throw: `Failure` names the exception. */
  datatype Result<+R, +E> = Success(value: R) | Failure(error: E)
}
