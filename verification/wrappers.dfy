/** Optional values and results used throughout the model. */
module Wrappers {

  /** An optional value; `None` also stands for a missing property or `undefined`. */
  datatype Option<+T> = None | Some(value: T) {

    /** Returns the wrapped value, or `default` when there is none. */
    function GetOr(default: T): T {
      match this
      case Some(v) => v
      case None => default
    }
  }

  /** The outcome of an operation that may throw: a value or the error raised. */
  datatype Result<+R, +E> = Success(value: R) | Failure(error: E)
}
