/** The Option datatype used for Python's `None`-or-value returns. */
module Wrappers {

  /** Either no value (Python's `None`) or some value. */
  datatype Option<+T> = None | Some(value: T)
}
