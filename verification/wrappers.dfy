/** Optional values and success/failure results, used wherever the service
    returns `undefined` or throws. */
module Wrappers {

  /** A value that may be absent (`undefined` in the service). */
  datatype Option<+T> = None | Some(value: T) {

    /** Returns the value, or `default` when absent. */
    function GetOr(default: T): T {
      match this
      case Some(v) => v
      case None => default
    }
  }

  /** The outcome of an operation that either returns a value or throws an error. */
  datatype Result<+R, +E> = Success(value: R) | Failure(error: E) {

    /** True when the operation threw. */
    predicate IsFailure() {
      Failure?
    }
  }
}
