/** Option and Result values shared by every module of the model. */
module Wrappers {

  /** A value that may be absent: a JSON field that is missing, or a JavaScript `null`. */
  datatype Option<+T> = None | Some(value: T) {

    /** The value, or `default` when absent: JavaScript's destructuring default `{ x = d } = obj`. */
    function GetOr(default: T): T {
      match this
      case Some(v) => v
      case None => default
    }
  }

  /** The outcome of an operation that either returns a value or raises an error. */
  datatype Result<+T, +E> = Success(value: T) | Failure(error: E)
}
