/** The optional value used for nullable results (`null` in the source). */
module Wrappers {

  datatype Option<+T> = None | Some(value: T)
}
