/** The optional value that stands in for the NaN "no price" sentinel. */
module Wrappers {

  datatype Option<+T> = None | Some(value: T)
}
