/**
 * Option and Result, and the error classes the library raises
 * (CodecError, ValidationError, CryptoVerificationError, UsageError,
 * InternalError).
 */
module Wrappers {
  datatype Option<T> = None | Some(value: T)

  /** The five exception classes thrown by the library. */
  datatype MlsError =
    | CodecError
    | ValidationError
    | CryptoVerificationError
    | UsageError
    | InternalError

  /** A computation that either yields a value or raises one of the errors. */
  datatype Result<T> = Ok(value: T) | Err(error: MlsError)
}
