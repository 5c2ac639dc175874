/** The failure values that unwind a request up to the single recovery point,
    and the failure-compatible wrappers that replace Go's panics with explicit returns. */
module Failures {

  /** What a handler can abort with. In the Go code these are the dynamic types of a
      panic value: `exception.NotFoundError`, `validator.ValidationErrors`, and anything
      else (a driver `error`, a `*strconv.NumError`, a JSON decode error). */
  datatype Failure =
    | NotFound(message: string)
    | Validation(message: string)
    | Other(desc: string)

  /** A result that either carries a value or the failure that aborted the computation. */
  datatype Result<+T> = Ok(value: T) | Err(failure: Failure) {

    predicate IsFailure() {
      Err?
    }

    function PropagateFailure<U>(): Result<U>
      requires Err?
    {
      Err(failure)
    }

    function Extract(): T
      requires Ok?
    {
      value
    }
  }

  /** Go's nillable values: an `error` that may be nil is an `Option<string>` of its message. */
  datatype Option<+T> = None | Some(value: T)
}
