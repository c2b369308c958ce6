/** An optional value: a missing object, a failed parse or fetch. */
module Wrappers {
  datatype Option<+T> = None | Some(value: T)
}
