/** The optional value used where the original code returns or stores null. */
module Options {
  datatype Option<T> = None | Some(value: T)
}
