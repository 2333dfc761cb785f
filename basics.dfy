/** Small wrapper datatypes shared by every module of the model. */
module Basics {

  /** A value that may be absent (a JavaScript `null`/`undefined`). */
  datatype Option<+T> = None | Some(value: T)

  /** The outcome of a store query: the rows, or the store's error message. */
  datatype Result<+T> = Ok(value: T) | Err(message: string)
}
