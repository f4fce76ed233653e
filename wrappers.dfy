/** The optional value used wherever the scanner's source works with java.util.Optional. */
module Wrappers {

  datatype Option<+T> = None | Some(value: T)
}
