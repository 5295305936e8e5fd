/** The optional value JavaScript expresses with `null`, `undefined` or `NaN`. */
module Wrappers {

  datatype Option<+T> = None | Some(value: T)
}
