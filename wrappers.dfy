/** The optional result used where the engine returns None. */
module Wrappers {

  datatype Option<+T> = None | Some(value: T)
}
