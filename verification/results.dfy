/** A failure-compatible result type: the model's stand-in for a JavaScript
    exception that propagates out of the build. */
module Results {

  datatype Result<+T, +E> = Success(value: T) | Failure(error: E) {

    /** `:-` stops at an error and hands it on. */
    predicate IsFailure() {
      Failure?
    }

    /** The same error, typed as the caller's result. */
    function PropagateFailure<U>(): Result<U, E>
      requires Failure?
    {
      Failure(error)
    }

    /** What `:-` binds when there is no error. */
    function Extract(): T
      requires Success?
    {
      value
    }
  }
}
