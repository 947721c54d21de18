/** Option and Result, the two failure-carrying wrappers the rest of the model uses. */
module Wrappers {

  /** A value that may be absent: Python's `None` or a nullable database column. */
  datatype Option<+T> = None | Some(value: T) {
    function GetOr(default: T): T {
      match this
      case Some(v) => v
      case None => default
    }
  }

  /** The outcome of a validator: the cleaned value, or what was wrong with the input. */
  datatype Result<+T, +E> = Ok(value: T) | Err(error: E)
}
