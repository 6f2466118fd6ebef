/** Optional values and fallible results shared by every module of the model. */
module Wrappers {

  /** A value that may be absent: `undefined`/`null` in the JavaScript source. */
  datatype Option<+T> = None | Some(value: T) {
    /** The `??` operator: the value if present, otherwise the default. */
    function GetOr(default: T): T {
      match this
      case Some(v) => v
      case None => default
    }
  }

  /** The outcome of an operation that may throw: `Failure` carries the error message. */
  datatype Result<+T> = Success(value: T) | Failure(error: string)
}
