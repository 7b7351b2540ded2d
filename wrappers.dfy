/** The optional value that `Array.prototype.find` returns: the element, or `undefined`. */
module Wrappers {
  datatype Option<+T> = None | Some(value: T)
}
