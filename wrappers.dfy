/** The optional value that JavaScript spells as "an object or `undefined`". */
module Wrappers {
  datatype Option<+T> = None | Some(value: T)
}
