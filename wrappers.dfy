/** Option and Result, the model's stand-ins for JavaScript's `undefined`,
    Python's `None` and thrown exceptions. */
module Wrappers {

  datatype Option<+T> = None | Some(value: T)

  datatype Result<+T, +E> = Ok(value: T) | Err(error: E)
}
