/** The two result types every part of the model uses. Error texts are not modelled. */
module Basics {
  datatype Option<+T> = None | Some(value: T)

  datatype Result<+T> = Ok(value: T) | Err
}
