/** Failure-carrying wrappers used wherever the Java code returns null or throws. */
module Wrappers {

  /** A value that may be absent: the model of a Java reference that may be null. */
  datatype Option<+T> = None | Some(value: T) {
    function GetOr(default: T): T {
      match this
      case Some(v) => v
      case None => default
    }
  }

  /** The outcome of an operation that either produces a value or throws. */
  datatype Result<+R, +E> = Success(value: R) | Failure(error: E) {
    predicate IsSuccess() { Success? }

    predicate IsFailure() { Failure? }

    function PropagateFailure<U>(): Result<U, E>
      requires Failure?
    {
      Failure(error)
    }

    function Extract(): R
      requires Success?
    {
      value
    }
  }

  /**
   * The unchecked Java exceptions that the game engine lets escape: IllegalArgumentException
   * from its argument checks, IndexOutOfBoundsException from a list or array access, and
   * NullPointerException from a null put into an immutable list.
   */
  datatype Thrown = IllegalArgument | IndexOutOfBounds | NullPointer

  /** Preconditions.checkArgument: nothing when the condition holds, else IllegalArgumentException. */
  function CheckArgument(condition: bool): (r: Result<(), Thrown>)
    ensures r.Success? <==> condition
    ensures r.Failure? ==> r.error == IllegalArgument
  {
    if condition then Success(()) else Failure(IllegalArgument)
  }
}
