/** Option and Result, the failure-carrying datatypes the rest of the model returns. */
module Wrappers {

  /** A value that may be absent: a nullable column, a JSON key that may be missing. */
  datatype Option<+T> = None | Some(value: T) {

    /** The carried value, or `default` when there is none. */
    function GetOr(default: T): T {
      match this
      case Some(v) => v
      case None => default
    }
  }

  /** Either a successfully loaded value or the errors that prevented loading it. */
  datatype Result<+T, +E> = Ok(value: T) | Err(error: E)
}
