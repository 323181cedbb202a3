/** The optional-value type used wherever the driver may produce nothing. */
module Wrappers {

  datatype Option<+T> = None | Some(value: T)
}
