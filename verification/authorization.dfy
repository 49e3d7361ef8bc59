/**
 * `Genius::Auth`: the session's one field, `@token`, with a validating
 * setter (`token=`, aliased `login=`), the non-raising query
 * `authorized?`, and `logout!`; and `token_ext`, which falls back on the
 * session token.
 *
 * `Errors.validate_token` is not part of this model: it is a parameter,
 * a function that returns normally or raises. Two things are assumed of
 * it where a member says so: it refuses, with a `TokenError`, a token
 * that is not 64 characters long (`EnforcesLength`), and it refuses `nil`
 * with a `TokenError` (`RefusesNil`).
 */
module Auth {
  import opened Wrappers
  import opened Errors

  /** `Errors.validate_token(token)`: returns normally or raises. */
  type Validator = Option<string> -> Result<()>

  /** The validator refuses every token whose length is not 64 with a `TokenError`. */
  ghost predicate EnforcesLength(validate: Validator)
  {
    forall t: string :: |t| != TokenLength ==> validate(Some(t)).Err? && validate(Some(t)).error.TokenError?
  }

  /** The validator refuses `nil` with a `TokenError`, which makes an empty session unauthorized. */
  predicate RefusesNil(validate: Validator)
  {
    validate(None).Err? && validate(None).error.TokenError?
  }

  /**
   * `authorized?(token)`: `true` when validation returns, `false` when it
   * raises `TokenError`; any other exception propagates.
   */
  function Authorized(token: Option<string>, validate: Validator): (r: Result<bool>)
    ensures r == Ok(true) <==> validate(token).Ok?
    ensures r == Ok(false) <==> validate(token).Err? && validate(token).error.TokenError?
    ensures r.Err? <==> validate(token).Err? && !validate(token).error.TokenError?
    ensures r.Err? ==> r.error == validate(token).error && !r.error.TokenError?
  {
    match validate(token)
    case Ok(_) => Ok(true)
    case Err(e) => if e.TokenError? then Ok(false) else Err(e)
  }

  /** With a length-enforcing validator, `authorized?` answers `false` for a token of the wrong length. */
  lemma MalformedNotAuthorized(t: string, validate: Validator)
    requires EnforcesLength(validate)
    requires |t| != TokenLength
    ensures Authorized(Some(t), validate) == Ok(false)
  {
    assert validate(Some(t)).Err?;
  }

  /** With a validator that refuses `nil`, `authorized?` answers `false` for an empty session. */
  lemma NilNotAuthorized(validate: Validator)
    requires RefusesNil(validate)
    ensures Authorized(None, validate) == Ok(false)
  {
  }

  /** `token_ext(token)`: the explicit token when there is one, the session token otherwise. */
  function TokenExt(explicit: Option<string>, session: Option<string>): (r: Option<string>)
    ensures explicit.Some? ==> r == explicit
    ensures explicit.None? ==> r == session
  {
    if explicit.Some? then explicit else session
  }

  /** The state `Genius::Auth` keeps between calls. */
  class Session {
    var token: Option<string>

    /** A fresh session holds no token. */
    constructor()
      ensures token == None
    {
      token := None;
    }

    /**
     * `token=(t)` and its alias `login=(t)`: validation first; the token is
     * stored only when validation returns, and the previous one is kept
     * when it raises.
     */
    method SetToken(t: Option<string>, validate: Validator) returns (r: Result<()>)
      modifies this
      ensures r == validate(t)
      ensures r.Ok? ==> token == t
      ensures r.Err? ==> token == old(token)
    {
      r := validate(t);
      if r.Ok? {
        token := t;
      }
    }

    /** `authorized?` with no argument: asks about the session token. */
    function IsAuthorized(validate: Validator): (r: Result<bool>)
      reads this
      ensures r == Ok(true) <==> validate(token).Ok?
      ensures r == Ok(false) <==> validate(token).Err? && validate(token).error.TokenError?
      ensures r.Err? ==> !r.error.TokenError?
    {
      Authorized(token, validate)
    }

    /** `logout!`: forgets the session token; a second call changes nothing. */
    method Logout()
      modifies this
      ensures token == None
      ensures old(token).None? ==> unchanged(this)
    {
      if token.Some? {
        token := None;
      }
    }
  }

  /**
   * Logging out and then logging in with a token that is not 64 characters
   * long leaves the session empty, and `authorized?` answers `false`.
   */
  method LogoutThenInvalidLogin(s: Session, t: string, validate: Validator) returns (r: Result<()>, answer: Result<bool>)
    requires EnforcesLength(validate) && RefusesNil(validate)
    requires |t| != TokenLength
    modifies s
    ensures r.Err? && r.error.TokenError?
    ensures s.token == None
    ensures answer == Ok(false)
  {
    s.Logout();
    r := s.SetToken(Some(t), validate);
    answer := s.IsAuthorized(validate);
    NilNotAuthorized(validate);
  }

  /**
   * A session's lifecycle: unauthorized when fresh, authorized after a
   * login the validator accepts, unauthorized again after `logout!`.
   */
  method Lifecycle(t: string, validate: Validator) returns (before: Result<bool>, during: Result<bool>, after: Result<bool>)
    requires RefusesNil(validate)
    requires validate(Some(t)).Ok?
    ensures before == Ok(false) && during == Ok(true) && after == Ok(false)
  {
    var s := new Session();
    before := s.IsAuthorized(validate);
    var r := s.SetToken(Some(t), validate);
    during := s.IsAuthorized(validate);
    s.Logout();
    after := s.IsAuthorized(validate);
    NilNotAuthorized(validate);
  }
}
