/** A value that may be absent, as a C pointer that may be NULL. */
module Wrappers {
  datatype Option<T> = None | Some(value: T)
}
