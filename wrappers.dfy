/** The optional-value datatype used for Python's `Optional[...]` fields and for partial parsers. */
module Wrappers {

  datatype Option<+T> = None | Some(value: T)
}
