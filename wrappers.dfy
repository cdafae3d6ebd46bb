/** The optional value used throughout the model: a JavaScript value that may be
    `undefined`, a parse that may throw, a regular-expression match that may be `null`. */
module Wrappers {

  datatype Option<+T> = None | Some(value: T)
}
