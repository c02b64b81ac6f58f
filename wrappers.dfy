/** The optional value of the source: a Python `None` or a present value. */
module Wrappers {

  datatype Option<+T> = None | Some(value: T)
}
