/** The optional value used throughout the model for JavaScript's missing results and for a call that throws. */
module Wrappers {

  datatype Option<+T> = None | Some(value: T)
}
