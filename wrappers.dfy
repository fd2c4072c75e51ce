/** Option, used wherever the source can fail without changing state. */
module Wrappers {

  datatype Option<+T> = None | Some(value: T)
}
