/** The optional-value datatype used throughout the model: `None` stands for
    JavaScript's `null`, `undefined` and, for form fields, the empty string. */
module Wrappers {

  datatype Option<+T> = None | Some(value: T)
}
