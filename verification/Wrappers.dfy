/** The small types that the other modules share. */
module Wrappers {
  datatype Option<+T> = None | Some(value: T)

  type Positive = n: nat | n > 0 witness 1
}
