/** The optional value used wherever the program has a pointer or an error that may be nil. */
module Wrappers {
  datatype Option<+T> = None | Some(value: T)
}
