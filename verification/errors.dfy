/** Shared failure-carrying types: Go's `(T, error)` pairs become `Result<T>`,
    a bare `error` return becomes `Status`, and every error the modelled code
    can produce is one constructor of `Error`. Wrapping with `fmt.Errorf("...: %v", err)`
    is a constructor that keeps the cause. */
module Errors {

  datatype Option<+T> = None | Some(value: T)

  datatype Result<+T> = Ok(value: T) | Err(error: Error)

  /** A Go `error` return value: nil is `Success`. */
  datatype Status = Success | Failure(error: Error)

  datatype Error =
    /** Anything reported by the operating system or a foreign library
        (process start/exit, user lookup, file reading, configuration loading). */
    | OsError(detail: string)
    // executor/executor.go
    | EmptyCommand
    | UserLookupFailed(username: string, cause: Error)
    // yubikey/challenge.go
    | NotV2State
    | BadChallengeHex
    | BadHashHex
    | BadSaltHex
    | BadIterations
    | BadSlot
    | ChallengeResponseFailed(cause: Error)
    | HashingFailed(cause: Error)
    // cmd_unlock.go and cmd_lock.go
    | ReadStateFailed(cause: Error)
    | ValidationFailed(cause: Error)
    | ResponseRejected
    | CommandFailed(cause: Error)
    // main.go
    | NoConfigFile
    | ConfigLoadFailed(cause: Error)
    | Usage
}
