/** Optional values and results with an error, for the nullable columns and the
    exceptions of the services. */
module Wrappers {

  /** A value that may be absent: a nullable column or a lookup that returns null. */
  datatype Option<+T> = None | Some(value: T) {
    function GetOr(default: T): T {
      match this
      case Some(v) => v
      case None => default
    }
  }

  /** The outcome of a service call: its value, or the exception it raises. */
  datatype Result<+R, +E> = Success(value: R) | Failure(error: E)
}
