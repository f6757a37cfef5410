/** The optional value used for "no match" and "no endpoint". */
module Wrappers {

  datatype Option<+T> = None | Some(value: T)
}
