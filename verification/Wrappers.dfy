/** The optional values that nullable columns hold. */
module Wrappers {
  datatype Option<+T> = None | Some(value: T)
}
