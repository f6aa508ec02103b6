/** The optional value used across the model for JavaScript's `undefined`. */
module Optional {
  datatype Option<+T> = None | Some(value: T)
}
