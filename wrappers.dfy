/** The optional value used throughout the model: `None` stands for JavaScript's
    `null`/`undefined` (an absent element, a missing array slot) and, for
    numbers, for `NaN`. */
module Wrappers {

  datatype Option<+T> = None | Some(value: T)
}
