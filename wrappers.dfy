/** The optional value shared by the registry lookup and the type-text
    parsers. */
module Wrappers {
  datatype Option<T> = None | Some(value: T)
}
