/** Failure values of the backend and the failure-compatible wrappers that carry them.

    Every exception the backend throws or forwards to `next(err)` is one `AppError`:
    - `CustomError` is the application's own error class, a message plus an HTTP status;
    - `MulterError` is raised by the upload parser, identified by its `code`;
    - `ValidationError` is the storage layer's schema validation failure, naming the paths that failed;
    - `OtherError` is anything else (storage faults, signing faults), identified by its name.
 */
module Outcomes {

  datatype Option<T> = None | Some(value: T)

  datatype AppError =
    | CustomError(message: string, statusCode: int)
    | MulterError(code: string)
    | ValidationError(paths: seq<string>)
    | OtherError(name: string)

  /** Either a value or the error the source would throw. */
  datatype Result<T> = Ok(value: T) | Err(error: AppError) {

    predicate IsFailure() {
      Err?
    }

    function PropagateFailure<U>(): Result<U>
      requires Err?
    {
      Err(error)
    }

    function Extract(): T
      requires Ok?
    {
      value
    }
  }

  /** Outcome of an Express middleware: `Pass` when it calls `next()` with no error,
      `Fail(e)` when it throws `e` or calls `next(e)`. */
  datatype Outcome = Pass | Fail(error: AppError)

  /** The error the storage layer raises when a unique index rejects an insert. */
  const DuplicateKey: AppError := OtherError("MongoServerError")
}
