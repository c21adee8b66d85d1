/** The optional value shared by the other modules: a property that may be
    absent, a digit that may not parse, a `rows` field that may be undefined. */
module Wrappers {

  datatype Option<+T> = None | Some(value: T)
}
