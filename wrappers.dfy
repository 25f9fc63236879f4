/** The optional value used for Python's `None`, for a missing CSV cell and for a failed `int()` parse. */
module Wrappers {

  datatype Option<+T> = None | Some(value: T)
}
