/** Failure-compatible values shared by the other modules. */
module Wrappers {
  /** A pointer or a column that may be absent. */
  datatype Option<+T> = None | Some(value: T)

  /** The value of a call that returns an error instead of its result. */
  datatype Result<+T> = Success(value: T) | Failure {
    predicate IsFailure() {
      Failure?
    }

    function PropagateFailure<U>(): Result<U>
      requires Failure?
    {
      Failure
    }

    function Extract(): T
      requires Success?
    {
      value
    }
  }
}
