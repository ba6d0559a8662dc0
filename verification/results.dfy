/** Failure-carrying values shared by the editor model.

    The control reports misuse by throwing one of three .NET argument
    exceptions; here a thrown exception is a `Failure` value instead. */
module Results {

  /** The exceptions the modelled code throws. */
  datatype Error =
    | ArgumentNull        // System.ArgumentNullException
    | Argument            // System.ArgumentException
    | ArgumentOutOfRange  // System.ArgumentOutOfRangeException

  /** A value, or the exception raised instead of producing it. */
  datatype Result<+T> = Success(value: T) | Failure(error: Error)

  /** An optional value, as returned by a search that may find nothing. */
  datatype Option<+T> = None | Some(value: T)
}
