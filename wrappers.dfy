/** The optional value used wherever the Python code works with `None`. */
module Wrappers {

  datatype Option<+T> = None | Some(value: T)
}
