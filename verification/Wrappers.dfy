/** The usual optional value, in place of the program's NULL pointers and error codes. */
module Wrappers {
  datatype Option<+T> = None | Some(value: T)
}
