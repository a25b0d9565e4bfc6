/** Shared wrappers and the error taxonomy of one run of the command. */
module Base {

  /** A value that may be absent (a Go nil pointer or interface). */
  datatype Option<+T> = None | Some(value: T)

  /** A value or an error, for Go's `(value, err)` returns where only one side is meaningful. */
  datatype Result<+T, +E> = Ok(value: T) | Err(error: E)

  /** The errors a run can end with, tagged by where they arise.
      Go passes each error value through unchanged; the tag records only its origin. */
  datatype Error =
    | ReadFailure(message: string)     // the phone-number file could not be read
    | InvalidArgs                      // ExecuteValidate was given no phone numbers
    | ClientFailure(message: string)   // the validation-service client could not be created
    | ServiceFailure(message: string)  // one validation call failed
    | MarshalFailure(message: string)  // rendering the aggregate to text failed
}
