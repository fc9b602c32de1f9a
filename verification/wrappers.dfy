/** Failure-compatible result types shared by every module of the model. */
module Wrappers {

  datatype Option<+T> = None | Some(value: T)

  /** A computation that either yields a value or throws. */
  datatype Result<+T, +E> = Success(value: T) | Failure(error: E) {
    predicate IsFailure() {
      Failure?
    }

    function PropagateFailure<U>(): Result<U, E>
      requires Failure?
    {
      Failure(error)
    }

    function Extract(): T
      requires Success?
    {
      value
    }
  }

  /**
   * A state transition that may throw. Unlike Result, a throw still carries
   * the state as the source leaves it: JavaScript exceptions do not undo the
   * field assignments made before the throw.
   */
  datatype Outcome<+S, +E> = Ok(state: S) | Threw(state: S, error: E) {
    predicate IsFailure() {
      Threw?
    }

    function PropagateFailure(): Outcome<S, E>
      requires Threw?
    {
      this
    }

    function Extract(): S
      requires Ok?
    {
      state
    }
  }
}
