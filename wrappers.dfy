/** Optional values (Java's null) and results of operations that can throw. */
module Wrappers {

  /** A value that may be absent: `None` stands for Java's `null`. */
  datatype Option<+T> = None | Some(value: T) {
    function GetOr(default: T): T {
      match this
      case Some(v) => v
      case None => default
    }
  }

  /** The outcome of a call that either returns a value or throws. */
  datatype Result<+T, +E> = Success(value: T) | Failure(error: E)
}
