/** Option and Result, the two failure-carrying datatypes the rest of the model uses. */
module Wrappers {

  /** An optional value; a JavaScript `undefined` field is `None`. */
  datatype Option<+T> = None | Some(value: T) {

    /** Returns the wrapped value, or `default` when there is none. */
    function GetOr(default: T): T {
      match this
      case Some(v) => v
      case None => default
    }
  }

  /** Either a computed value or the reason it could not be computed. */
  datatype Result<+R, +E> = Success(value: R) | Failure(error: E)
}
