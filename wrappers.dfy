/** Optional values and results with an error text, shared by every module. */
module Wrappers {

  datatype Option<+T> = None | Some(value: T) {
    function GetOr(default: T): T {
      match this
      case Some(v) => v
      case None => default
    }
  }

  /** The outcome of an operation that can fail with a message (an exception in the source). */
  datatype Result<+T> = Ok(value: T) | Err(message: string)
}
