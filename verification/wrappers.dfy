/** Optional values and success-or-error outcomes shared by every module. */
module Wrappers {

  /** A value that may be missing. */
  datatype Option<+T> = None | Some(value: T) {

    /** The carried value, or `default` when there is none. */
    function GetOr(default: T): T {
      match this
      case Some(v) => v
      case None => default
    }
  }

  /** The outcome of an operation that either produces a value or fails with a message. */
  datatype Result<+T> = Ok(value: T) | Err(message: string)
}
