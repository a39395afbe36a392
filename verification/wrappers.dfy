/** Optional values and success/failure results, used wherever the Python code
    returns `None` or raises. */
module Wrappers {

  datatype Option<+T> = None | Some(value: T) {

    /** The wrapped value, or `default` when there is none (Python's `x or default`). */
    function GetOr(default: T): T {
      match this
      case Some(v) => v
      case None => default
    }
  }

  /** The outcome of a Python call: its return value, or the exception it raised. */
  datatype Result<+T, +E> = Success(value: T) | Failure(error: E) {

    /** Rewrites the raised exception, keeping a returned value as it is. */
    function MapFailure<E2>(f: E -> E2): Result<T, E2> {
      match this
      case Success(v) => Success(v)
      case Failure(e) => Failure(f(e))
    }
  }
}
