/** An optional value: a property or a host object that may be absent. */
module Wrappers {
  datatype Option<+T> = None | Some(value: T)
}
