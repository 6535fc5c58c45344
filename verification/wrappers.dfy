/** The optional value used for "null" results and for ratings that do not parse. */
module Wrappers {

  datatype Option<+T> = None | Some(value: T)
}
