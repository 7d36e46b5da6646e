/** Failure values for the places where the program raises an exception. */
module Results {

  /** Why an operation stopped. The first two are the program's own
      `AnsiRoleMdException`; the others are the Python runtime errors that the
      same inputs provoke. */
  datatype Error =
    | DuplicateVariable   // "There are duplications in the variables names."
    | EmptyTable          // "The table vars is null or empty!"
    | AttributeFailure    // AttributeError: `.items()`, `.get()` or `.find()` on a value lacking it
    | TypeFailure         // TypeError: iterating None or a number, hashing a list, joining a non-str
    | FileNotFound        // FileNotFoundError from `open` on a task file that is not there

  datatype Option<+T> = None | Some(value: T)

  datatype Result<+T> = Ok(value: T) | Err(error: Error) {
    predicate IsFailure() { Err? }

    function PropagateFailure<U>(): Result<U>
      requires Err?
    {
      Err(error)
    }

    function Extract(): T
      requires Ok?
    {
      value
    }
  }

  /** Python's `None`-returning operations that may raise: either they ran to
      the end (`Pass`) or they raised `error`. */
  datatype Outcome = Pass | Fail(error: Error)

  /** An imperative operation that ended with `outcome` and left the state
      `now` did what `spec` describes. The state after an exception is not
      specified: the program does not catch these exceptions, the run ends. */
  predicate Agrees<T(==)>(spec: Result<T>, outcome: Outcome, now: T)
  {
    match spec
    case Ok(v) => outcome == Pass && now == v
    case Err(e) => outcome == Fail(e)
  }
}
