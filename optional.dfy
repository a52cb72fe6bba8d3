/** The usual optional value: JavaScript's `undefined`/`null` versus a value. */
module Optional {
  datatype Option<+T> = None | Some(value: T)
}
