/** Option and Result types shared by the modules of the model. */
module Wrappers {

  /** A value that may be absent: JavaScript's `null`/`undefined` on one side, a value on the other. */
  datatype Option<+T> = None | Some(value: T)

  /** The settled value of an operation that either returns a value or throws/rejects with a message. */
  datatype Result<+T> = Ok(value: T) | Err(message: string)
}
