/** The optional value shared by the server and client models: a missing
    record, an absent request field, an empty storage slot. */
module Wrappers {

  datatype Option<+T> = None | Some(value: T)
}
