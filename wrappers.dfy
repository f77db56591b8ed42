/** The optional value the main process models `null` and `undefined` with. */
module Wrappers {

  datatype Option<+T> = None | Some(value: T)
}
