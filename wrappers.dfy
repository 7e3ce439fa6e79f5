/** The optional value the script expresses with Python's `None`. */
module Wrappers {
  datatype Option<+T> = None | Some(value: T)
}
