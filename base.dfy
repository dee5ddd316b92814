// Failure-compatible wrappers shared by both halves of the model: the
// source signals its errors by raising, which the model returns as `Err`.
module Base {

  datatype Option<+T> = None | Some(value: T)

  datatype Result<+T, +E> = Ok(value: T) | Err(error: E)
}
