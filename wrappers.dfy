// Option and Result, shared by every module of the model.
module Wrappers {

  datatype Option<T> = None | Some(value: T)

  /** Errors a native handler can fail with. `Panic` stands for a Go runtime
      panic in the handler (an index out of range or a division by zero),
      which aborts the transaction like any returned error. */
  datatype Error =
    | Unauthorized       // a witness or admin check failed
    | NotFound           // a record the handler needs is absent
    | BadStatus          // a peer's status does not allow the operation
    | Rejected           // a numeric or structural guard rejected the input
    | Deserialize        // the input bytes do not decode
    | Panic              // a Go runtime panic

  datatype Result<T> = Ok(value: T) | Err(error: Error)
}
