/** An optional value: what a lookup that may fail yields. */
module Wrappers {
  datatype Option<+T> = None | Some(value: T)
}
