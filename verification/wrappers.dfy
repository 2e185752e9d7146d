/** The optional value used where Python returns `None` for "nothing". */
module Wrappers {

  datatype Option<+T> = None | Some(value: T)
}
