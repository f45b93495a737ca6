/** The exceptions the engine can raise, and results that carry them. */
module Outcomes {
  /** The exceptions thrown by the byte domain and by the key schedule and the
    * cipher. */
  datatype Exception =
    | UnknownValue(c: char)      // ArgumentException: a character other than 0, 1, X or x
    | IncorrectLength(n: nat)    // ArgumentException: a string whose length is not 8
    | KeyOfUnknownSize           // ArgumentException: a key of N words with N not 4, 6 or 8
    | NotFiniteNumber            // NotFiniteNumberException: an unknown bit cast to a byte
    | IndexOutOfRange            // IndexOutOfRangeException: a text that is not 16 NBytes long

  datatype Result<T> = Success(value: T) | Failure(error: Exception)
  {
    predicate IsFailure() { Failure? }
    function PropagateFailure<U>(): Result<U>
      requires Failure?
    { Failure(error) }
    function Extract(): T
      requires Success?
    { value }
  }

  datatype Option<T> = None | Some(value: T)
}
