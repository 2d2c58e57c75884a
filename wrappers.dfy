/** The optional value used for nullable DOM results and absent attributes. */
module Wrappers {

  datatype Option<+T> = None | Some(value: T)
}
