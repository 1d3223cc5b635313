/** The optional value used wherever the crawler deals in Python's `None`. */
module Wrappers {
  datatype Option<+T> = None | Some(value: T)
}
