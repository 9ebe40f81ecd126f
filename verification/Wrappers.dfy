/** The result of an operation that may fail without saying why. */
module Wrappers {
  datatype Option<+T> = None | Some(value: T)
}
