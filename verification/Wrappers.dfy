/** The optional value that stands for Python's `None` and SQL's NULL. */
module Wrappers {

  datatype Option<+T> = None | Some(value: T)
}
