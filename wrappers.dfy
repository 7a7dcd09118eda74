/** Option and Result, for lookups that can miss and operations the BCL can reject. */
module Wrappers {
  datatype Option<T> = None | Some(value: T)

  datatype Result<T, E> = Ok(value: T) | Err(error: E)
}
