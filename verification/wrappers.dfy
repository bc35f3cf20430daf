/** The optional-value datatype shared by the rest of the model. */
module Wrappers {

  /** Either nothing, or exactly one value. */
  datatype Option<+T> = None | Some(value: T)
}
