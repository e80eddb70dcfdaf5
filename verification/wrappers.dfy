/** Failure-carrying results used throughout the model. An `Err` stands for a
    JavaScript exception (or an early `return` with an error log) and carries
    the message the source would raise. */
module Wrappers {

  datatype Option<+T> = None | Some(value: T) {
    function GetOr(default: T): T {
      match this
      case Some(v) => v
      case None => default
    }
  }

  datatype Result<+T> = Ok(value: T) | Err(msg: string)
}
