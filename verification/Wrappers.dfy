/** The two failure-carrying types shared by every module of the model. */
module Wrappers {

  datatype Option<+T> = None | Some(value: T)

  /** A failure carries no payload: each component has one fixed message for it. */
  datatype Result<+T> = Success(value: T) | Failure
}
