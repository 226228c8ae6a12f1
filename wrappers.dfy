/** The optional value used wherever the source holds `null` or returns nothing. */
module Wrappers {

  datatype Option<+T> = None | Some(value: T)
}
