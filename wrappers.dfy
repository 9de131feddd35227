/** Option and Result, the two failure-carrying datatypes the rest of the model uses
    in place of Python's None and its raised exceptions. */
module Wrappers {

  datatype Option<+T> = None | Some(value: T)

  datatype Result<+T, +E> = Ok(value: T) | Err(error: E)
}
