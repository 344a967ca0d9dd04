/** The optional value used wherever the system may have nothing to give back. */
module Wrappers {

  datatype Option<T> = None | Some(value: T)

}
