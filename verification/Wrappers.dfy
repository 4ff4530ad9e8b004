/** Results shared by every module: the platform's domain errors as values. */
module Wrappers {

  datatype Option<+T> = None | Some(value: T)

  // The domain exceptions a transaction can end with; raising one leaves the block
  // without a commit, so nothing it wrote survives.
  datatype Error = NotFound | Conflict | AlreadyExists | InvalidArgument

  datatype Result<+T> = Ok(value: T) | Err(error: Error)
}
