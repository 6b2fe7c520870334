/** Option and Result, the failure-carrying values the services return instead of raising. */
module Wrappers {

  datatype Option<+T> = None | Some(value: T) {
    function GetOr(default: T): T {
      match this
      case Some(v) => v
      case None => default
    }
  }

  /** `Err` stands for an exception raised by the source, carrying its message. */
  datatype Result<+T, +E> = Ok(value: T) | Err(error: E)
}
