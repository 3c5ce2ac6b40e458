/** A value that may be absent, standing for a C pointer that may be NULL. */
module Wrappers {
  datatype Option<T> = None | Some(value: T)
}
