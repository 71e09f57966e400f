/** Optional values and fallible results, used wherever the Python code
    tests `hasattr`, compares with `None`, or raises. */
module Wrappers {

  datatype Option<+T> = None | Some(value: T) {
    /** The wrapped value, or `fallback` when there is none. */
    function GetOr(fallback: T): T {
      match this
      case Some(v) => v
      case None => fallback
    }
  }

  /** Outcome of a single remote catalog call. */
  datatype Result<+T> = Ok(value: T) | Err(reason: string)
}
