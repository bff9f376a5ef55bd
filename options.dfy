/** An optional value: `undefined`/`null` in the program become `None`. */
module Options {
  datatype Option<+T> = None | Some(value: T)
}
