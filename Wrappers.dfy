/** The optional-value type shared by the other modules. */
module Wrappers {

  /** A Ruby value that may be `nil`. */
  datatype Option<+T> = None | Some(value: T)
}
