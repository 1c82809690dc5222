/** Optional values, and the result-or-error pair that every service call returns. */
module Wrappers {

  datatype Option<+T> = None | Some(value: T)

  /** The sentinel errors of the service; `Internal` is the abstract failure outcome. */
  datatype Error =
    | Internal
    | NotFound
    | ValidationFailed
    | EmailAlreadyRegistered
    | InvalidCredentials
    | InvalidRefreshToken
    | SessionInvalid
    | UserFrozen
    | UserNotFound
    | AdminRequired
    | AdminTargetForbidden
    | InvalidStatusTransition

  datatype Outcome<+T> = Ok(value: T) | Err(error: Error) {
    predicate IsFailure() {
      Err?
    }

    function PropagateFailure<U>(): Outcome<U>
      requires Err?
    {
      Err(error)
    }

    function Extract(): T
      requires Ok?
    {
      value
    }
  }

  /** The outcome of a guard that carries no value. */
  datatype Check = Pass | Fail(error: Error) {
    predicate IsFailure() {
      Fail?
    }

    function PropagateFailure<U>(): Outcome<U>
      requires Fail?
    {
      Err(error)
    }
  }

  /** Passes when the guard holds, and otherwise fails with `error`. */
  function Need(guard: bool, error: Error): Check {
    if guard then Pass else Fail(error)
  }
}
