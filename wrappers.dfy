/** The optional value used for a database row that may be absent. */
module Wrappers {

  datatype Option<+T> = None | Some(value: T)
}
