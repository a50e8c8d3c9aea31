/** Optional values and success/failure results, the model's replacement for
    a missing configuration option and for the `sys.exit()` error exits. */
module Results {

  /** An optional value: `None` stands for an option that is absent. */
  datatype Option<+T> = None | Some(value: T)

  /** Either a value or an error; failure-compatible, so `:-` propagates `Err`. */
  datatype Result<+T, +E> = Ok(value: T) | Err(error: E) {

    predicate IsFailure() {
      Err?
    }

    function PropagateFailure<U>(): Result<U, E>
      requires Err?
    {
      Err(error)
    }

    function Extract(): T
      requires Ok?
    {
      value
    }
  }
}
