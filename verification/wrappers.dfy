/** Failure-carrying values used for the command layer's error channel. */
module Wrappers {

  /** An optional value: what `Optional<T>` is in the program. */
  datatype Option<+T> = None | Some(value: T)

  /** Either a computed value or the error that stopped the computation
      (a thrown `CommandException` or `ParseException` in the program). */
  datatype Result<+T, +E> = Success(value: T) | Failure(error: E)
}
