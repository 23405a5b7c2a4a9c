/** A value that may be absent, used where the Go code has a nil error or a nil match. */
module Wrappers {

  datatype Option<+T> = None | Some(value: T)
}
