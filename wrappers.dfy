/** The optional value returned by the abstract number parser and by frame decoding. */
module Wrappers {

  datatype Option<+T> = None | Some(value: T)
}
