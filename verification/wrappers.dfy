/** The optional-value datatype used by the export parsers. */
module Wrappers {

  datatype Option<+T> = None | Some(value: T)
}
