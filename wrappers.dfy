/** The optional value that Python expresses as `None` or a value. */
module Wrappers {
  datatype Option<+T> = None | Some(value: T)
}
