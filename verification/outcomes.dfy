/** Failure-carrying values shared by every part of the model: an optional
    value (.NET's nullable results), a value-or-error result (the
    program's throwing calls) and the kinds of exception the search window
    tells apart. */
module Outcomes {

  datatype Option<+T> = None | Some(value: T)

  datatype Result<+T, +E> = Success(value: T) | Failure(error: E)

  /** The .NET exception types that reach the search window's handlers.
      Each carries the exception's `Message` where the handlers read it. */
  datatype Fault =
    | ServerDown(message: string)       // PrincipalServerDownException
    | LdapUnavailable(message: string)  // LdapException
    | Canceled                          // OperationCanceledException
    | AccessDenied(message: string)     // UnauthorizedAccessException
    | Failed(message: string)           // any other Exception
}
