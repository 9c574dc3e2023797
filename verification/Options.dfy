/** The optional values shared by every component: Go's nil pointers, absent map entries and
    failed parses. */
module Options {
  datatype Option<+T> = None | Some(value: T)
}
