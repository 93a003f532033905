/** Option and the outcome of a call that may raise, shared by every module. */
module Wrappers {

  datatype Option<+T> = None | Some(value: T)

  /** What a driver call or a collaborator reports besides a value. */
  datatype Failure = TimeoutError | OtherError

  /** The result of a call in the source that either returns a value or lets an
      exception propagate to its caller. */
  datatype Reply<+T> = Returned(value: T) | Raised(failure: Failure)
}
