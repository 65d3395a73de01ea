/** The optional value used for Swift's `T?`. */
module Wrappers {

  datatype Option<+T> = None | Some(value: T)
}
