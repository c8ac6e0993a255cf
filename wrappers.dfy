/** Optional values and the outcome of an operation that may raise KeyError. */
module Wrappers {
  datatype Option<T> = None | Some(value: T)

  /** A value, or Ruby's KeyError raised instead of returning one. */
  datatype Result<T> = Ok(value: T) | KeyError
}
