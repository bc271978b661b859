/** Option and Result values used for missing storage keys and for thrown errors. */
module Wrappers {

  datatype Option<+T> = None | Some(value: T) {
    /** The stored value, or the default when the key is absent. */
    function GetOr(default: T): T {
      match this
      case Some(v) => v
      case None => default
    }
  }

  /** A value or the error the source would throw. */
  datatype Result<+R, +E> = Ok(value: R) | Err(error: E)
}
