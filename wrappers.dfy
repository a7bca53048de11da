/** Option and Result types, and the Java exceptions the modelled code can raise. */
module Wrappers {

  datatype Option<+T> = None | Some(value: T)

  /** The unchecked exceptions that the metric engine and its driver can throw. */
  datatype Exception =
    | NoSuchElement            // Optional.orElseThrow() on a missing parent link
    | ArrayIndexOutOfBounds    // an array indexed with -1 or past its end
    | StringIndexOutOfBounds   // String.substring with an end index of -1
    | IllegalArgument          // a file path that is empty once trimmed
    | FileNotFound             // the parser could not open the source file
    | ParseProblem             // the parser could not parse the source file

  /** A value, or the exception that was thrown instead of returning it. */
  datatype Result<+T> = Success(value: T) | Failure(error: Exception) {
    predicate IsFailure() {
      Failure?
    }

    function PropagateFailure<U>(): Result<U>
      requires Failure?
    {
      Failure(error)
    }

    function Extract(): T
      requires Success?
    {
      value
    }
  }

  /** The result of a void Java method that may throw. */
  datatype Outcome = Pass | Fail(error: Exception)
}
