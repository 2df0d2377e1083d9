/** Optional values and success/failure results, as the rest of the model uses them. */
module Wrappers {

  /** A value that may be absent (`undefined` or `null` in the source's types). */
  datatype Option<+T> = None | Some(value: T) {
    /** The held value, or `default` when there is none. */
    function GetOr(default: T): T
    {
      match this
      case Some(v) => v
      case None => default
    }
  }

  /** The outcome of an operation that either succeeds or throws. */
  datatype Result<+R, +E> = Success(value: R) | Failure(error: E)
}
