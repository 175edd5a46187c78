/** The optional value used where the script holds `null` or `undefined`. */
module Wrappers {
  datatype Option<+T> = None | Some(value: T)
}
