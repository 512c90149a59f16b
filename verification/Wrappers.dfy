/** Types every module shares. */
module Wrappers {
  datatype Option<+T> = None | Some(value: T)

  type byte = x: nat | x < 256
}
