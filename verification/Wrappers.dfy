/** Result types shared by the model. */
module Wrappers {

  /** A value that may be absent: Go's nil for pointers, errors and slices. */
  datatype Option<+T> = None | Some(value: T)
}
