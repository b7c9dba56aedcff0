/** The optional value and the success-or-message result used across the model. */
module Wrappers {

  datatype Option<+T> = None | Some(value: T)

  /** The shape of every fallible exported operation: a value, or the error string
      handed back through `ret_err`. */
  datatype Result<+T> = Ok(value: T) | Err(msg: seq<char>)
}
