/** The optional value used for the dashboard's possibly missing cells (pandas NaN). */
module Wrappers {

  datatype Option<+T> = None | Some(value: T)
}
