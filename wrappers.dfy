/** A value that may be absent: the model's stand-in for a null reference or a missing match. */
module Wrappers {
  datatype Option<T> = None | Some(value: T)
}
