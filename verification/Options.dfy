/** The Some/None datatype used for a row that is not found (a null pointer) and a variable that is not set. */
module Options {
  datatype Option<+T> = None | Some(value: T)
}
