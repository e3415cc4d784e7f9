/** A value that may be missing: an optional field, a failed lookup, or a thrown error. */
module Wrappers {
  datatype Option<+T> = None | Some(value: T)
}
