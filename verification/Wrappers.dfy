/** Optional values and the outcome of a service call. */
module Wrappers {
  datatype Option<+T> = None | Some(value: T)

  /** The HTTP exceptions the services throw. */
  datatype Error = NotFound | BadRequest | Conflict | Forbidden

  datatype Result<+T> = Ok(value: T) | Err(error: Error)
}
