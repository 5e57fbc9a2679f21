/** The error type shared by the speed-test engine and its command-line front end,
    and the Result/Option wrappers that carry it. Result supports `:-`, which plays
    the part of the `?` operator of the original code. */
module Errors {

  /** The five kinds of failure a speed test reports. The two variants that wrap a
      library error (the HTTP client's and the operating system's) keep only the text
      that error displays. */
  datatype SpeedTestError =
    | NetworkError(cause: string)
    | IoError(cause: string)
    | TestFailed(message: string)
    | InvalidConfig(message: string)
    | Timeout

  datatype Option<+T> = None | Some(value: T)

  datatype Result<+T> = Ok(value: T) | Err(error: SpeedTestError) {

    predicate IsFailure() {
      Err?
    }

    function PropagateFailure<U>(): Result<U>
      requires Err?
    {
      Err(error)
    }

    function Extract(): T
      requires Ok?
    {
      value
    }
  }
}
