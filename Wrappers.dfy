/** The optional-value wrapper used throughout the model. */
module Wrappers {

  /** A value that may be absent: a file that cannot be decoded, a field that does not parse. */
  datatype Option<+T> = None | Some(value: T)
}
