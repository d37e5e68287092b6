/** The optional value that the library decoders return: a decoder either
    recognises a value at the front of a byte string or it does not. */
module Options {

  datatype Option<+T> = None | Some(value: T)
}
