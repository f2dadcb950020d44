/** The outcome types shared by the models. */
module Wrappers {

  datatype Option<+T> = None | Some(value: T)

  /** Err stands for a thrown exception. */
  datatype Result<+T, +E> = Ok(value: T) | Err(error: E)
}
