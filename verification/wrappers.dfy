/** The optional value used for fields a message may lack and for parsers that can fail. */
module Wrappers {

  datatype Option<+T> = None | Some(value: T)
}
