/** Result types shared by the models: a value that may be absent, and a computation that may fail. */
module Wrappers {
  datatype Option<+T> = None | Some(value: T)

  /** `Err` carries a short description of the error the source returns. */
  datatype Result<+T> = Ok(value: T) | Err(error: string)
}
