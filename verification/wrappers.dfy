/** The optional value used for "no result" returns (Python's `None`). */
module Wrappers {
  datatype Option<+T> = None | Some(value: T)
}
