/** The option type shared by the modules: a value, or none. */
module Wrappers {
  datatype Option<+T> = None | Some(value: T)
}
