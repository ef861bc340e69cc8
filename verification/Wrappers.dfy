/**
 A value that may be missing: a null field, a text without parse, a lookup without result.
 */
module Wrappers {

  datatype Option<+T> = None | Some(value: T)
}
