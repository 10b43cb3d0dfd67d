/** Option and Result values used for missing fields, failed lookups and thrown errors. */
module Wrappers {

  /** A value that may be absent (a missing field, `undefined`, `null`, or NaN where noted). */
  datatype Option<+T> = None | Some(value: T) {
    function GetOr(default: T): T {
      match this
      case Some(v) => v
      case None => default
    }
  }

  /** The outcome of a request handler: a value, or the error it throws or answers with. */
  datatype Result<+R, +E> = Success(value: R) | Failure(error: E)
}
