// The two wrappers the model uses for optional values and for Go's (value, error) results.
module Wrappers {
  datatype Option<+T> = None | Some(value: T)

  datatype Result<+T> = Ok(value: T) | Err
}
