/** The optional value used throughout the model for a pointer that may be null. */
module Options {
  datatype Option<+T> = None | Some(value: T)
}
