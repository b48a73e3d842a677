/** The Option datatype used for partial decoders. */
module Wrappers {
  datatype Option<+T> = None | Some(value: T)
}
