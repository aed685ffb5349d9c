/** Nullable values and the success-or-error outcome of a handler. */
module Wrappers {

  /** A nullable column, an optional input field, or a lookup that may find nothing. */
  datatype Option<T> = None | Some(value: T) {
    function GetOr(default: T): T {
      match this
      case Some(v) => v
      case None => default
    }
  }

  /** A handler either returns a value or throws an `Error` carrying a message. */
  datatype Result<T> = Ok(value: T) | Err(message: string)
}
