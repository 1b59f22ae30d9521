/** The Option type that stands in for Python's ValueError and IndexError in this model. */
module Wrappers {

  datatype Option<+T> = None | Some(value: T)
}
