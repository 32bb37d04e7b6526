/** The optional value used where the program leaves a field unset. */
module Wrappers {
  datatype Option<+T> = None | Some(value: T)
}
