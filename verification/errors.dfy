/**
 The Go `error` values the modelled code produces or passes on. Errors that
 come from the operating system, the daemon or the fetch tool are opaque in
 the source; here each is one constructor saying which call failed.
 */
module Errors {

  datatype Error =
    | WriteAfterClose          // archive/tar: write after close
    | WriteTooLong             // archive/tar: write too long
    | MissedBytes(n: nat)      // archive/tar: missed writing n bytes
    | SinkFailed               // the io.Writer under a tar writer failed
    | PrefixFailed             // tarPrefix failed
    | WalkFailed               // filepath.Walk handed the callback an error
    | SocketsNotSupported      // archive/tar: sockets not supported
    | UnknownFileMode          // archive/tar: unknown file mode
    | OpenFailed               // os.Open failed
    | ReadFailed               // reading an opened file failed
    | FetchFailed              // the fetch subprocess failed
    | KillFailed               // Process.Kill failed
    | RemoveFailed             // os.RemoveAll failed

  /** A Go `error` result: nil, or an error. */
  datatype Status = Ok | Failed(err: Error)

  datatype Result<T> = Success(value: T) | Failure(error: Error)
}
