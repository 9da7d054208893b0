/** The optional value shared by the listing parser and the retention engine. */
module Wrappers {

  datatype Option<+T> = None | Some(value: T)
}
