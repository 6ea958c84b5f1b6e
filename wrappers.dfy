/** The optional-value datatype used for score parsing and the round-code table. */
module Wrappers {

  datatype Option<+T> = None | Some(value: T)
}
