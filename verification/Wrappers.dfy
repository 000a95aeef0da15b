// Optional values, and results with the errors shared by all components.
module Wrappers {

  datatype Option<+T> = None | Some(value: T)

  datatype Error = NotFound | AlreadyExists | InvalidArg | HashFailed | WrongPassword | StoreFailed | AccessDenied

  datatype Result<+T> = Ok(value: T) | Err(error: Error)
}
