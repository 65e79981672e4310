/** Optional values and error results shared by every module. */
module Wrappers {

  /** Python's `None` or a value. */
  datatype Option<+T> = None | Some(value: T) {
    function GetOr(default: T): T {
      match this
      case Some(v) => v
      case None => default
    }
  }

  /** A value, or the error with which the source would exit or raise. */
  datatype Result<+T> = Ok(value: T) | Err(message: string)
}
