/** The optional value shared by the tail and strptime models. */
module Wrappers {

  datatype Option<T> = None | Some(value: T)
}
