/** The optional value the C code signals with a NULL pointer. */
module Options {

  datatype Option<+T> = None | Some(value: T)
}
