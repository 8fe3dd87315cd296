/** `Option` and `Result`, shared by the inventory and executor models. */
module Wrappers {

  /** A value that may be absent: Python's `Optional[T]`, or a key missing from a mapping. */
  datatype Option<+T> = None | Some(value: T) {
    function GetOr(default: T): T {
      match this
      case Some(v) => v
      case None => default
    }
  }

  /** The outcome of an operation that either returns a value or raises an exception. */
  datatype Result<+T, +E> = Ok(value: T) | Err(error: E)
}
