/** The optional value used throughout the model (the source's folly::Optional). */
module Options {
  datatype Option<+T> = None | Some(value: T)
}
