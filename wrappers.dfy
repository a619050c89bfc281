/** Java's `null` for optional values: a reference that may be absent. */
module Wrappers {
  datatype Option<+T> = None | Some(value: T)
}
