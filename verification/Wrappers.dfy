/** Values that may be absent: what the C and C++ code expresses with NULL or a not-found result. */
module Wrappers {
  datatype Option<+T> = None | Some(value: T)
}
