/** The optional value used for Go's error results, missing map entries and nil pointers. */
module Wrappers {
  datatype Option<+T> = None | Some(value: T)
}
