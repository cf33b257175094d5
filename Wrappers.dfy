/** The optional value used wherever the dashboard yields `null` or `undefined`. */
module Wrappers {

  datatype Option<+T> = None | Some(value: T)
}
