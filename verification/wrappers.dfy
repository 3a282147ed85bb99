/** The optional value used where the program unwraps or panics on a missing value. */
module Wrappers {

  datatype Option<+T> = None | Some(value: T)
}
