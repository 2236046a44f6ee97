// Option and Result values shared by every module of the model.
module Wrappers {
  datatype Option<+T> = None | Some(value: T)

  /** A computation that either yields a value or raises the named error. */
  datatype Result<+T> = Ok(value: T) | Err(error: string)
  {
    predicate IsFailure() { Err? }
  }
}
