/** JavaScript's "may be undefined" values. */
module Wrappers {

  datatype Option<+T> = None | Some(value: T)
}
