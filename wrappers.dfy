/** The optional value used for every time of day that may be absent. */
module Wrappers {

  /** `None` stands for the "not a time" value that a failed parse yields. */
  datatype Option<+T> = None | Some(value: T)
}
