/** The absent-or-present value used for the .NET references that may be null. */
module Wrappers {

  datatype Option<+T> = None | Some(value: T)
}
