/** A value, or none: for the null pointers and panics of the source. */
module Wrappers {
  datatype Option<T> = None | Some(value: T)
}
