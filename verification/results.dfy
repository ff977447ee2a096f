/** Failure-carrying datatypes shared by every module of the model.
    The source's `Result<(), String>` is an `Outcome`; `Result<T, String>` is a `Result<T>`;
    `Option<T>` is an `Option<T>`. */
module Results {

  /** A creation time (the wall clock in the source): supplied by the caller, only carried. */
  type Timestamp = int

  datatype Option<+T> = None | Some(value: T)

  /** Outcome of an operation that returns nothing on success and an error message otherwise. */
  datatype Outcome = Pass | Fail(error: string)

  /** A value or an error message. */
  datatype Result<+T> = Success(value: T) | Failure(error: string)

  /** The new contents of a store after a mutating operation, together with what the operation returned. */
  datatype Update<+S> = Update(store: S, result: Outcome)
}
