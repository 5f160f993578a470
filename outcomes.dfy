/** Values and errors passed between the steps of the pipeline. */
module Outcomes {

  datatype Option<+T> = None | Some(value: T)

  /** A Go error value: either one produced by a collaborator (the speech
      engine, the summarizer, the file system, the directory walk) or one the
      program wraps with `fmt.Errorf("<context>%w", cause)`. */
  datatype Error = Cause(message: string) | Wrapped(context: string, cause: Error)

  /** A Go `(value, error)` pair where exactly one side is meaningful. */
  datatype Result<+T> = Success(value: T) | Failure(error: Error)
}
