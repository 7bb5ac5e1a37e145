/** The usual Some/None datatype. A page element that may be missing is an `Option`. */
module Wrappers {

  datatype Option<+T> = None | Some(value: T)
}
