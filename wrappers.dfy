/** The optional value the engine uses for a food cell that may be absent (`null`). */
module Wrappers {

  datatype Option<T> = None | Some(value: T)

}
