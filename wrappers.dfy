/** Optional and fallible values shared by the modules of the model. */
module Wrappers {

  datatype Option<T> = None | Some(value: T) {
    /** Kotlin's elvis operator `?:`. */
    function GetOr(default: T): T {
      match this
      case Some(v) => v
      case None => default
    }
  }

  datatype Result<T, E> = Ok(value: T) | Err(error: E)
}
