/** The optional value that stands for Java's nullable references in this model. */
module Wrappers {

  /** None plays the part of `null`. */
  datatype Option<+T> = None | Some(value: T)
}
