/** Failure-carrying datatypes shared by every module of the model.
    `Error` names the exceptions the modelled code throws. */
module Wrappers {

  datatype Option<+T> = None | Some(value: T)

  /** The exception kinds raised by the modelled code. `Raised` stands for an
      exception thrown by code outside the model (an invoked extension
      method, a factory, file-system staging), carrying an opaque cause.
      `TargetInvocation` is what reflection throws when code it invokes
      throws: the invoked code's exception, wrapped. */
  datatype Error =
    | ArgumentNull(paramName: string)
    | Argument(paramName: string)
    | InvalidOperation
    | MissingMember
    | NullReference
    | ArgumentOutOfRange
    | InvalidConstraint
    | Raised(cause: nat)
    | TargetInvocation(inner: Error)

  datatype Result<+T> = Success(value: T) | Failure(error: Error)

  /** The outcome of an operation that returns nothing (`void`) but may throw. */
  datatype Outcome = Pass | Fail(error: Error)

  /** `string.IsNullOrEmpty`, with `None` standing for a null reference. */
  predicate IsNullOrEmpty(s: Option<string>)
  {
    s.None? || s.value == ""
  }
}
