/** The usual optional-value datatype, used where the model can run out of input. */
module Wrappers {

  datatype Option<+T> = None | Some(value: T)
}
