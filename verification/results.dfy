/** Optional values and success-or-failure values: the model's stand-ins for
    Java's `null`/`Optional` and for thrown exceptions. */
module Results {

  /** A value that may be absent (a nullable field or an `Optional`). */
  datatype Option<+T> = None | Some(value: T)

  /** The outcome of an operation that either returns a value or throws. */
  datatype Result<+T, +E> = Ok(value: T) | Err(error: E) {

    predicate IsFailure() {
      Err?
    }

    function PropagateFailure<U>(): Result<U, E>
      requires Err?
    {
      Err(error)
    }

    function Extract(): T
      requires Ok?
    {
      value
    }
  }
}
