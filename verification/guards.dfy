/**
 * The ways the endpoints consult `authorized?` before a request when the
 * caller gave no token.
 */
module Guards {
  import opened Wrappers
  import opened Errors
  import opened Auth

  /**
   * `Auth.authorized?(...)` as a statement: its answer is discarded, so the
   * call matters only through an exception other than `TokenError`.
   */
  function Advisory(token: Option<string>, validate: Validator): (r: Result<()>)
    ensures r.Ok? <==> Authorized(token, validate).Ok?
    ensures r.Err? ==> r.error == validate(token).error && !r.error.TokenError?
  {
    match Authorized(token, validate)
    case Err(e) => Err(e)
    case Ok(_) => Ok(())
  }

  /**
   * `return if token.nil? && !Auth.authorized?.nil?` for a nil `token`, as
   * written: whether the endpoint returns `nil` at once. `authorized?`
   * answers `true` or `false`, never `nil`, so whenever it answers at all
   * the endpoint returns.
   */
  function SkipAsWritten(session: Option<string>, validate: Validator): (r: Result<bool>)
    ensures r.Ok? ==> r.value
    ensures r.Err? <==> Authorized(session, validate).Err?
  {
    match Authorized(session, validate)
    case Err(e) => Err(e)
    case Ok(answer) => Ok(true)
  }

  /** The guard as evidently intended: return `nil` at once exactly when the session is not authorized. */
  function Skip(session: Option<string>, validate: Validator): (r: Result<bool>)
    ensures r == Ok(false) <==> validate(session).Ok?
    ensures r == Ok(true) <==> validate(session).Err? && validate(session).error.TokenError?
    ensures r.Err? <==> Authorized(session, validate).Err?
  {
    match Authorized(session, validate)
    case Err(e) => Err(e)
    case Ok(answer) => Ok(!answer)
  }

  /** The two guards part ways exactly on an authorized session: the written one still returns `nil`. */
  lemma SkipDiffers(session: Option<string>, validate: Validator)
    ensures SkipAsWritten(session, validate) != Skip(session, validate) <==> validate(session).Ok?
  {
  }
}
