/** The optional value used wherever a pattern may or may not have matched. */
module Wrappers {

  datatype Option<+T> = None | Some(value: T)
}
