/** Option and Result, the failure-carrying values used by every module. */
module Wrappers {

  datatype Option<+T> = None | Some(value: T) {
    function GetOr(default: T): T {
      match this
      case Some(v) => v
      case None => default
    }
  }

  /** A computation that either produced `value` or threw `error`. */
  datatype Result<+T, +E> = Ok(value: T) | Err(error: E)
}
