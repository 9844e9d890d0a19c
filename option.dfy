/** The optional value used throughout the model: JavaScript's `undefined`,
    `null` and `NaN` results become `None`. */
module Wrappers {

  datatype Option<+T> = None | Some(value: T)
}
