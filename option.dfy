/** An optional value, for the partial inverses of the model's formatting functions. */
module Options {
  datatype Option<T> = None | Some(value: T)
}
