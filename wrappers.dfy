/** A value that may be absent: an accessor that has nothing to read, or a
    layout slot a frame kind does not have. */
module Wrappers {
  datatype Option<+T> = None | Some(value: T)
}
