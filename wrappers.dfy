/** The optional-value datatype shared by the two components. */
module Wrappers {

  /** A value that may be absent: an optional key of a payload, a nil
      coverage, an empty selection. */
  datatype Option<+T> = None | Some(value: T)
}
