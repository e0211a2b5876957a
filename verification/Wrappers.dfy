/**
  A value that may be missing.
*/
module Wrappers {

  datatype Option<+T> = None | Some(value: T)
}

/**
  A value, or the error that stands in its place.
*/
module Results {

  datatype Result<+T, +E> = Ok(value: T) | Err(error: E)
}
