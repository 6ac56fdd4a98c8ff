/** The optional value used where the launcher returns null or an empty Optional. */
module Wrappers {

  datatype Option<+T> = None | Some(value: T)
}
