/** The usual Some/None wrapper: JavaScript's `null`, `undefined` and `NaN` results become `None`. */
module Optional {

  datatype Option<+T> = None | Some(value: T)
}
