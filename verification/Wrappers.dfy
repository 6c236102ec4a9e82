/** Outcomes that can fail. */
module Wrappers {

  datatype Option<+T> = None | Some(value: T)

  datatype Result<+T, +E> = Ok(value: T) | Err(error: E)

  /** The kinds of `CryptoError`; their message texts are left out. */
  datatype CryptoError =
    | SecretSharing
    | SecretReconstruction
    | ShareFormat
    | ShareVersion
    | ShareChecksum
    | PlcOperation
    | Space
}
