/** Option and Result values for the places where the bot's Python code uses `None`
    or raises and answers the user with an error text. */
module Wrappers {

  datatype Option<+T> = None | Some(value: T)

  datatype Result<+T, +E> = Ok(value: T) | Err(error: E)
}
