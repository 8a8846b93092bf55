/** The optional value used for Redis replies that may be null and for optional message fields. */
module Wrappers {
  datatype Option<+T> = None | Some(value: T)
}
