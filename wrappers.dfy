/** Optional values and error-carrying results shared by every module. */
module Wrappers {

  /** A value that may be absent: a missing entry, a NaN, a failed library call. */
  datatype Option<+T> = None | Some(value: T) {
    function GetOr(default: T): T {
      match this
      case Some(v) => v
      case None => default
    }
  }

  /** The outcome of an operation that raises in the source. */
  datatype Result<+T, +E> = Ok(value: T) | Err(error: E)
}
