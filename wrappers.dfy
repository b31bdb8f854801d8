/** Option and Result values used for Python's `()`, `Status(v)` and `assert` failure paths. */
module Wrappers {

  datatype Option<+T> = None | Some(value: T)

  /** `Err` stands for an uncaught Python exception, carrying its message. */
  datatype Result<+T> = Ok(value: T) | Err(error: string)
}
