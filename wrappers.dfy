/** Optional values and results with an error path, shared by every module. */
module Wrappers {

  datatype Option<T> = None | Some(value: T)

  /** A value, or the exception the source raises instead. */
  datatype Result<T> = Ok(value: T) | Err(error: string)
}
