/** The result type of the C functions that return a pointer or NULL. */
module Wrappers {
  datatype Option<+T> = None | Some(value: T)
}
