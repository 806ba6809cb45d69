/** Small value wrappers shared by the modules of this project. */
module Wrappers {

  /** A value that may be absent: JavaScript's `null` or an unset React state. */
  datatype Option<+T> = None | Some(value: T)
}
