/** The error values that cross the driver's boundary. */
module Errors {

  /** The gRPC status codes that `spanner.ErrCode` reports. */
  datatype Code =
    | OK | Canceled | Unknown | InvalidArgument | DeadlineExceeded | NotFound
    | AlreadyExists | PermissionDenied | ResourceExhausted | FailedPrecondition
    | Aborted | OutOfRange | Unimplemented | Internal | Unavailable | DataLoss
    | Unauthenticated

  /** Go `error` values. The first six are the driver's own sentinels. */
  datatype Error =
    | ErrRollback            // transaction rolled back (internal)
    | ErrTxnReadOnly         // transaction is read-only
    | ErrTxnStarted          // transaction already started
    | ErrTxnFailed           // transaction failed
    | ErrTxnRetry            // transaction needs to be retried
    | ErrUnsupported         // operation unsupported
    | ErrArgCount            // number of arguments in statement do not match
    | ErrInvalidUri          // url.Parse rejected the connection string
    | ErrInvalidScheme       // connection string scheme is neither empty nor "spanner"
    | ErrInvalidPath         // connection string path is not projects/P/instances/I/databases/D
    | EOF                    // io.EOF, end of a result set
    | IteratorDone           // iterator.Done from a row iterator
    | ErrKeyExists           // server.ErrKeyExists of the storage layer above the driver
    | ErrColumnIndex         // the Spanner client's error for a column index out of range
    | Backend(code: Code, id: nat)  // an error from the Spanner client, with its gRPC code
    | Other(id: nat)         // any other error, which carries no gRPC code
}
