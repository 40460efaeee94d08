/** The optional value returned by the decoders when a bit field holds no enumerant. */
module Wrappers {

  datatype Option<+T> = None | Some(value: T)
}
