/** The optional value both modules use: a JavaScript lookup that may find
    nothing, a Python value that may be None. */
module Wrappers {

  datatype Option<T> = None | Some(value: T)
}
