/** The optional-value datatype used throughout the model (Ruby's nil). */
module Wrappers {
  datatype Option<+T> = None | Some(value: T)
}
