/** Optional values and results with an error, shared by every module of the model. */
module Wrappers {

  /** An optional value: a JavaScript `null`/`undefined` or a missing Python dict key. */
  datatype Option<+T> = None | Some(value: T) {

    /** The carried value, or `default` when absent (Python's `dict.get(k, default)`). */
    function GetOr(default: T): T
    {
      match this
      case Some(v) => v
      case None => default
    }
  }

  /** The outcome of an operation of the source that can throw. */
  datatype Result<+R, +E> = Success(value: R) | Failure(error: E)
}
