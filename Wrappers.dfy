/** The optional value used for "not found" and "load failed" results. */
module Wrappers {
  datatype Option<+T> = None | Some(value: T)
}
