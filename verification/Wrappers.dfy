/** Presence or absence of a value. */
module Wrappers {
  datatype Option<+T> = None | Some(value: T)
}
