/** Optional values and failures, as the handlers use `None` and raised
    errors. */
module Wrappers {

  datatype Option<T> = None | Some(value: T) {
    function GetOr(default: T): T {
      match this
      case None => default
      case Some(v) => v
    }
  }

  datatype Result<T> = Ok(value: T) | Err(message: string)
}
