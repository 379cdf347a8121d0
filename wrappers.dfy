/** Optional values and results with an error, shared by the other modules. */
module Wrappers {

  /** A value that may be absent: TypeScript's `T | undefined`. */
  datatype Option<T> = None | Some(value: T) {
    function GetOr(default: T): T {
      match this
      case Some(v) => v
      case None => default
    }
  }

  /** The outcome of an operation that may throw: a value or the error it raises. */
  datatype Result<T, E> = Success(value: T) | Failure(error: E)
}
