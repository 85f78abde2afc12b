/** The optional value used for the cached fitness of an individual. */
module Wrappers {

  datatype Option<+T> = None | Some(value: T)
}
