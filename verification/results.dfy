/** Failure-carrying values shared by the date, time and date-time models.
    Each `Error` stands for one kind of exception the modelled Python code raises. */
module Results {

  datatype Error =
    | AssertionFailed   // an `assert` on a falsy value (a required field given as None or 0)
    | ValueOutOfRange   // the `date`/`time`/`datetime` constructor rejects a field (ValueError)
    | DateOverflow      // stepping a date past 9999-12-31 or before 0001-01-01 (OverflowError)
    | DuplicateKeyword  // two keyword-argument sources supply the same key (TypeError)

  /** An optional argument: `None` is Python's `None`. */
  datatype Option<T> = None | Some(value: T) {

    /** The value if present, otherwise `default` (Python's `x if x is not None else default`). */
    function GetOr(default: T): T {
      match this
      case Some(v) => v
      case None => default
    }
  }

  datatype Result<T> = Success(value: T) | Failure(error: Error)
}
