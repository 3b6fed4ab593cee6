/** The optional value used for a reference that may be null or a query that may fail. */
module Wrappers {

  datatype Option<+T> = None | Some(value: T)
}
