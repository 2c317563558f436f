/** Option, used for JavaScript values that may be missing and for calls that may throw. */
module Wrappers {

  datatype Option<+T> = None | Some(value: T)
}
