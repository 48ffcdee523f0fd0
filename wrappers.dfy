/** Failure-compatible result types used by the parser and the client. */
module Wrappers {

  /** A value that may be absent, such as an optional option field or the `subtypes` property. */
  datatype Option<+T> = None | Some(value: T) {
    function GetOr(default: T): T {
      match this
      case Some(v) => v
      case None => default
    }
  }

  /** The outcome of an operation that yields a value or raises an error. */
  datatype Result<+R, +E> = Success(value: R) | Failure(error: E)

  /** The outcome of an operation that yields nothing or raises an error. */
  datatype Outcome<+E> = Pass | Fail(error: E)
}
