/** The usual optional value, used for "the parse did not finish". */
module Wrappers {
  datatype Option<+T> = None | Some(value: T)
}
