/** The option type used where the source passes a pointer that may be null. */
module Wrappers {
  datatype Option<+T> = None | Some(value: T)
}
