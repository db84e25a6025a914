/** The optional value that stands in for a Java reference which may be `null`. */
module Wrappers {

  /** `None` plays the part of the `null` sentinel; `Some(v)` is a real reference to `v`. */
  datatype Option<+T> = None | Some(value: T)
}
