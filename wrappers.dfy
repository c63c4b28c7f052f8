/** The optional value used for "a game or none". */
module Wrappers {
  datatype Option<+T> = None | Some(value: T)
}
