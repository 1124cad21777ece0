/** An optional value, the one wrapper type the model needs. */
module Wrappers {

  /** A value that may be absent; used for the food cell, which has no
      coordinates until the first reset places it. */
  datatype Option<+T> = None | Some(value: T)
}
