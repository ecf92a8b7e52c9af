/** The optional value used by the parsing and colouring functions. */
module Wrappers {

  datatype Option<T> = None | Some(value: T)
}
