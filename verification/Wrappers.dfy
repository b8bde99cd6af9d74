/** The optional results of the agent's functions: a value, or an error or absence. */
module Wrappers {

  datatype Option<+T> = None | Some(value: T)
}
