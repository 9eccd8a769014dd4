/** Option and Result values used for JavaScript's `undefined`/`null` and for error returns. */
module Wrappers {

  /** `None` stands for a JavaScript `undefined` or `null` value. */
  datatype Option<+T> = None | Some(value: T) {
    function GetOr(default: T): T {
      match this
      case Some(v) => v
      case None => default
    }
  }

  /** An operation that either yields a value or fails with an error. */
  datatype Result<+R, +E> = Ok(value: R) | Err(error: E)
}
