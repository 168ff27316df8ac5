/** The optional value used throughout the model for "found / not found" results. */
module Wrappers {
  datatype Option<+T> = None | Some(value: T)
}
