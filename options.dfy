/** An optional value: the model's stand-in for the source's `null` and `undefined`. */
module Options {

  datatype Option<+T> = None | Some(value: T)
}
