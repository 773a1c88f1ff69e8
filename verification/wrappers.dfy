/** The optional value used for the two keys the per-serving loop adds to a
    catalog record. */
module Wrappers {
  datatype Option<T> = None | Some(value: T)
}
