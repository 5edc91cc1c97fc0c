/** The optional value used wherever the page may or may not receive data. */
module Wrappers {
  datatype Option<+T> = None | Some(value: T)
}
