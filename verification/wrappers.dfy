/** The optional value used wherever a C routine returns a pointer that may be NULL. */
module Wrappers {
  datatype Option<+T> = None | Some(value: T)
}
