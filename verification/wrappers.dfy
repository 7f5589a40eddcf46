/** The optional value used where the compiler has "no previous function" or "no such group". */
module Wrappers {

  datatype Option<+T> = None | Some(value: T)
}
