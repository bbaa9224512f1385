/** The optional value used for the source's `false | string` and `undefined` results. */
module Wrappers {
  datatype Option<+T> = None | Some(value: T)
}
