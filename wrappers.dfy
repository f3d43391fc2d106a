/** The Option type used for error returns by the other modules. */
module Wrappers {

  datatype Option<+T> = None | Some(value: T)
}
