/** Shared value types of the model: optional values, results, the errors the
    management layer raises, and management-operation addresses. */
module Common {

  datatype Option<+T> = None | Some(value: T)

  datatype Result<+T, +E> = Ok(value: T) | Err(error: E)
  {
    predicate IsFailure() { Err? }

    function PropagateFailure<U>(): Result<U, E>
      requires Err?
    {
      Err(error)
    }

    function Extract(): T
      requires Ok?
    {
      value
    }
  }

  /** The failures the modelled code raises or reports. */
  datatype Error =
    | AddressMissingKey(key: string)        // operationAddressMissingKey
    | KeyStoreFault(detail: string)         // KeyStoreException or a runtime fault of the key-store backend
    | CertificateEncodingFailed             // CertificateEncodingException from Certificate.getEncoded
    | NoSuchAlgorithm(algorithm: string)    // MessageDigest.getInstance found no provider
    | AlgorithmUnavailable                  // the store type (and provider) cannot be instantiated
    | FileNotFound(path: string)            // opening a missing file for reading
    | FileUnreadable(path: string)          // the file content cannot be parsed as a store
    | WrongPassword                         // the password does not unlock the file
    | FileNotWritable(path: string)         // the file cannot be opened for writing
    | WriteFailed(path: string)             // the store failed while writing
    | CloseFailed(path: string)             // closing the file stream failed
    | UnableToInitialiseKeyStore(cause: Error)
    | UnableToCompleteOperation(cause: Error)
    | CantSaveWithoutFile
    | OperationFailed(cause: Error)         // OperationFailedException wrapping a cause
    | RequiredServiceNotUp(state: ServiceState)
    | InvalidOperationName(name: string, expected: string)
    | StartException(detail: string)        // StartException of an unseen service
    | CredentialStoreFault(detail: string)  // CredentialStoreException of an unseen service

  /** The states of a service controller. */
  datatype ServiceState = Up | Down | Starting | Stopping | StartFailed | Removed

  /** One element of a management address, such as ("key-store", "ks1"). */
  datatype PathElement = PathElement(key: string, value: string)

  /** A management operation: its name and the address it targets. */
  datatype Operation = Operation(name: string, address: seq<PathElement>)
}
