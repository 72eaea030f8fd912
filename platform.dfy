/** The .NET and Win32 types shared by the server, client and front-end modules. */
module Platform {

  /** System.IO.Pipes.PipeDirection: which way bytes flow for this process. */
  datatype PipeDirection = In | Out | InOut

  /** A security identifier. The well-known ones the server names, plus any
      other SID a token's group list may hold (identified by its string form). */
  datatype Sid =
    | CreatorOwnerSid
    | BuiltinAdministratorsSid
    | LocalSid
    | WorldSid
    | AccountSid(name: string)

  /** The exceptions the core throws, and the wrapper the front end rethrows. */
  datatype Exception =
    | NotSupported          // NotSupportedException: bidirectional pipe
    | Argument              // ArgumentException: unsupported direction
    | ArgumentOutOfRange    // ArgumentOutOfRangeException: negative buffer size
    | Win32(code: int)      // Win32Exception carrying a last-error code
    | OperationCanceled     // TaskCanceledException / OperationCanceledException
    | Handled(inner: Exception)  // App.HandledException

  /** A value or the exception that was thrown instead. */
  datatype Result<T> = Ok(value: T) | Err(error: Exception)

  /** System.IO.FileAccess, as far as the core uses it. */
  datatype FileAccess = ReadAccess | WriteAccess

  /** A reference that may be null. */
  datatype Option<T> = None | Some(value: T)
}
