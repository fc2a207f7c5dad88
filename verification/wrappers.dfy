/** The Some/None datatype used for a decoded JSON field that may be null or absent. */
module Wrappers {

  datatype Option<+T> = None | Some(value: T)
}
