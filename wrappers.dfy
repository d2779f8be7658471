/** The Option datatype used for Python's "may be missing" results. */
module Wrappers {

  datatype Option<+T> = None | Some(value: T)
}
