/** A value that may be missing: a null column, an absent key, no answer. */
module Wrappers {
  datatype Option<T> = None | Some(value: T)
}
