/** The optional value returned by the parsers that read the archive back. */
module Wrappers {
  datatype Option<+T> = None | Some(value: T)
}
