/** The optional value used for the `number | null` fields of a review thread. */
module Wrappers {

  datatype Option<+T> = None | Some(value: T)
}
