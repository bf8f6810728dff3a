/** Failure-compatible result types used by every step that the source lets throw. */
module Wrappers {

  datatype Option<+T> = None | Some(value: T)

  /** The value a computation produced, or the error it raised. */
  datatype Result<+T, +E> = Success(value: T) | Failure(error: E) {

    predicate IsFailure() {
      Failure?
    }

    function PropagateFailure<U>(): Result<U, E>
      requires Failure?
    {
      Failure(error)
    }

    function Extract(): T
      requires Success?
    {
      value
    }
  }

  /** A step that returns nothing but may raise an error. */
  datatype Outcome<+E> = Pass | Fail(error: E) {

    /** The step's outcome followed by returning `r` when it passed. */
    function ToResult<T>(r: T): (res: Result<T, E>)
      ensures Pass? <==> res.Success?
      ensures res.Success? ==> res.value == r
      ensures res.Failure? ==> Fail? && res.error == error
    {
      match this
      case Pass => Success(r)
      case Fail(e) => Failure(e)
    }
  }
}
