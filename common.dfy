/** Shared result and error types for the Feishu document skill.
    Every operation of the skill either yields a value or fails with one of the
    errors below; the top-level dispatcher turns a failure into an envelope with
    ok = false. */
module Common {

  datatype Option<+T> = None | Some(value: T)

  /** The kinds of failure the skill reports. */
  datatype Error =
    /** run was called without an action */
    | MissingAction
    /** the action is not one of the six supported names; carries them in sorted order */
    | UnsupportedAction(action: string, allowed: seq<string>)
    /** neither an access token nor a complete app id / app secret pair was given */
    | MissingCredentials
    /** a required input of `operation` is empty; raised before any request is made */
    | MissingArgument(operation: string, name: string)
    /** the tenant credential exchange answered with a non-zero code */
    | AuthFailed(msg: string)
    /** the tenant credential exchange answered code 0 but without a credential */
    | AuthNoToken
    /** an API call answered with a non-zero code */
    | ApiError(operation: string, msg: string)
    /** the transport produced no answer (network or HTTP failure) */
    | NoResponse

  datatype Result<+T> = Ok(value: T) | Err(error: Error)

  /** The platform's `msg` field, or "unknown error" when the answer carries none. */
  function MessageOr(msg: Option<string>): string
  {
    match msg
    case Some(m) => m
    case None => "unknown error"
  }

  /** Both paginated endpoints go on only while the answer says there is more AND
      hands out a non-empty cursor; either one missing ends the pagination. */
  predicate Continues(hasMore: bool, cursor: string)
  {
    hasMore && cursor != ""
  }

  function Min(a: int, b: int): int { if a <= b then a else b }

  function Max(a: int, b: int): int { if a <= b then b else a }
}
