/** Failure-carrying datatypes shared by every module of the model. */
module Wrappers {

  datatype Option<+T> = None | Some(value: T)

  datatype Result<+R, +E> = Success(value: R) | Failure(error: E)

  /** The outcome of an operation that returns nothing but may raise. */
  datatype Outcome<+E> = Pass | Fail(error: E)

  /**
   * The Python exceptions the core raises or lets escape.
   * CollaboratorFailure stands for any exception raised by a call to the
   * language model (the call itself, or reading the text of its reply).
   */
  datatype Exception =
    | CollaboratorFailure
    | TypeError
    | KeyError
    | ValueError
    | AttributeError
}
