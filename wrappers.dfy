/** Optional values (Python's `None` versus a present value) and outcomes that can fail. */
module Wrappers {

  datatype Option<+T> = None | Some(value: T) {

    /** The value when present, `default` otherwise (Python's `x or default` for an optional). */
    function GetOr(default: T): T {
      match this
      case Some(v) => v
      case None => default
    }
  }

  /** The outcome of an operation the source lets raise an exception: a value, or the failure. */
  datatype Result<+T> = Ok(value: T) | Failure
}
