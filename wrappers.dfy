/** The usual optional-value datatype, shared by the parsing functions. */
module Wrappers {

  datatype Option<+T> = None | Some(value: T)
}
