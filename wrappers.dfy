/** The optional-value datatype used for the outcome of parsing. */
module Wrappers {

  datatype Option<+T> = None | Some(value: T)
}
