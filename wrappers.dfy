/** The optional-value type used for fields a stored record may lack. */
module Wrappers {

  datatype Option<+T> = None | Some(value: T)
}
