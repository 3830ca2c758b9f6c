/** Nullable values and thrown exceptions, as values. */
module Wrappers {

  /** A Java reference that may be null. */
  datatype Option<+T> = None | Some(value: T)

  /** The outcome of a service call that may throw instead of returning. */
  datatype Result<+T, +E> = Success(value: T) | Failure(error: E)

  /** What `String.valueOf` / string concatenation prints for a nullable string. */
  function JavaString(s: Option<string>): string
  {
    match s
    case Some(v) => v
    case None => "null"
  }
}
