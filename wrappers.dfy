/** Java's nullable references and `Optional` values, written as an option type. */
module Wrappers {

  datatype Option<+T> = None | Some(value: T)
}
