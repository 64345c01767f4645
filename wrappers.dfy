/** Failure-carrying datatypes shared by every module of the model.

    Python code signals errors by raising; the model returns `Err(e)` with the
    class of the exception that would have been raised. */
module Wrappers {

  datatype Option<+T> = None | Some(value: T) {
    function GetOr(default: T): T {
      match this
      case Some(v) => v
      case None => default
    }
  }

  datatype Result<+T, +E> = Ok(value: T) | Err(error: E)

  /** The exception classes raised by the modelled code.  The first group are
      Python built-ins, the second the library's own exception classes. */
  datatype Exc =
    | ValueError | TypeError | IndexError | KeyError | OverflowError | AttributeError
    | KaliValueError | KaliTypeError | KaliKeyError | KaliTestCaseError
    | KaliSetupError | KaliRemoveError | OtsConnectionError | OtsInvalidHeader

  /** A Python argument that is expected to be of type `T`: either it is
      (`Is`) or it is a value of some other type (`Other`).  Used wherever the
      source checks the type of an argument at run time. */
  datatype Dyn<+T> = Is(v: T) | Other
}
