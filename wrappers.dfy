/** Option, for the Python operations that return `None` or `False` where no value applies. */
module Wrappers {
  datatype Option<+T> = None | Some(value: T)
}
