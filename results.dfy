/** The one tagged error type that stands for the exceptions the reader raises,
    and the failure-compatible result that carries it. */
module Results {

  /** The structural faults of a directory file, each with the value that was found. */
  datatype FormatProblem =
    | BadSignature(found: int)
    | UnsupportedVersion(version: int)
    | UnexpectedTerminator(found: int)
    | IncorrectDictionarySize(actual: int, expected: int)

  datatype Error =
    | Format(problem: FormatProblem)     // VPKException
    | Truncated                          // EOFException: fewer bytes left than a read needs
    | Integrity(actual: int, expected: int)  // checksum mismatch in checkData
    | NotFound                           // the backing file does not exist
    | InvalidArgument                    // IllegalArgumentException and negative sizes

  datatype Result<+T> = Ok(value: T) | Err(error: Error) {
    predicate IsFailure() { Err? }

    function PropagateFailure<U>(): Result<U>
      requires Err?
    {
      Err(error)
    }

    function Extract(): T
      requires Ok?
    {
      value
    }
  }

  datatype Option<+T> = None | Some(value: T)
}
