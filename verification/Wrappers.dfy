/** A value that may be missing: a nil reference, an absent key, an error return. */
module Wrappers {
  datatype Option<+T> = None | Some(value: T)
}
