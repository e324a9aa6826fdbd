/** The absent-or-present value used wherever the Go code has nil or an SQL NULL. */
module Wrappers {
  datatype Option<+T> = None | Some(value: T)
}
