/** The optional value used for the nullable columns and the optional fields
    of the task and user records. */
module Wrappers {
  datatype Option<+T> = None | Some(value: T)
}
