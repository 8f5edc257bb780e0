/** Option and Result values for the crawler model: JavaScript's `undefined`
    and thrown exceptions are modelled with these. */
module Wrappers {

  datatype Option<+T> = None | Some(value: T)

  /** An operation that either yields a value or throws with a message. */
  datatype Result<+T> = Ok(value: T) | Err(message: string)

}
