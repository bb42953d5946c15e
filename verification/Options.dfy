/** The Some/None datatype used in place of Go's nil pointers, missing rows and failed lookups. */
module Options {
  datatype Option<+T> = None | Some(value: T)
}
