/** The optional value used across the model: `None` stands for JavaScript's
    `undefined`, a missing row, or `NaN` where a number was expected. */
module Wrappers {
  datatype Option<+T> = None | Some(value: T)
}
