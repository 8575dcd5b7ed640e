/** An optional value: the C code's NULL pointer or "not found". */
module Wrappers {

  datatype Option<T> = None | Some(value: T)
}
