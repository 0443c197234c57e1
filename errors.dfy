/** Failure-compatible wrappers and the error taxonomy of the container engine. */
module Errors {

  datatype Option<T> = None | Some(value: T)

  /** Every way an operation of the container engine can fail. */
  datatype Error =
    | OutOfBounds          // the file abstraction was asked for bytes beyond the end of the file
    | InvalidFormat        // the 4-byte type tag differs from the expected one
    | UnsupportedVersion   // the decoded version is above the caller's maximum
    | AlreadyWriting
    | NotWriting
    | AlreadyReading
    | NotReading
    | MissingSection
    | DuplicatedSection
    | SizeMismatch         // a read session closed after consuming a different byte count than declared
    | OutOfRange           // a range read reaches past the section's declared size
    | Undefined            // a property of `undefined` was read (no descriptor list for the id)
    | InvalidLength        // a negative buffer length

  datatype Result<T> = Ok(value: T) | Err(error: Error) {
    predicate IsFailure() { Err? }

    function PropagateFailure<U>(): Result<U>
      requires Err?
    {
      Err(error)
    }

    function Extract(): T
      requires Ok?
    {
      value
    }
  }

  /** The result of an operation that returns nothing but may fail. */
  datatype Outcome = Pass | Fail(error: Error)
}
