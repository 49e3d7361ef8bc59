/**
 * `Genius::Errors`: the library's exception records and the token check
 * that runs before an authenticated request. Raising an exception is
 * modelled as returning `Err`; the HTTP probe of the account endpoint is a
 * parameter giving the `meta.status` of the parsed response, `None` when
 * the response carries none.
 */
module Errors {
  import opened Wrappers

  /** The raised exceptions: `message` is what `Exception#message` answers. */
  datatype Error =
    | TokenError(message: string, msg: string, exceptionType: string)
    | TokenMissing(message: string, msg: string, exceptionType: string)
    | ArgumentError(message: string)
    | NoMethodError(message: string)

  /** A call either returns a value or raises. */
  datatype Result<+T> = Ok(value: T) | Err(error: Error)

  const InvalidTokenMsg: string :=
    "Invalid token. The access token provided is expired, revoked, malformed or invalid for other reasons."
  const InvalidTokenType: string := "token_invalid"
  const MissingTokenMsg: string :=
    "Token is required for this method. Please, add token via `Genius::Auth.login=``token''` method and continue"
  const MissingTokenType: string := "token_missing"

  const TokenErrorClass: string := "Genius::Errors::TokenError"
  const TokenMissingClass: string := "Genius::Errors::TokenMissing"

  /** The length every access token has. */
  const TokenLength: nat := 64

  /**
   * `TokenError.new(msg, exception_type)` as its documentation describes it:
   * `message` is `msg`, and both fields are stored unchanged.
   */
  function NewTokenError(msg: string := InvalidTokenMsg, exceptionType: string := InvalidTokenType): (e: Error)
    ensures e.TokenError?
    ensures e.message == msg && e.msg == msg && e.exceptionType == exceptionType
  {
    TokenError(msg, msg, exceptionType)
  }

  /** `TokenMissing.new(msg, exception_type)`, with `message` being `msg`. */
  function NewTokenMissing(msg: string := MissingTokenMsg, exceptionType: string := MissingTokenType): (e: Error)
    ensures e.TokenMissing?
    ensures e.message == msg && e.msg == msg && e.exceptionType == exceptionType
  {
    TokenMissing(msg, msg, exceptionType)
  }

  /**
   * `TokenError.new(msg, exception_type)` as written: `super(message)`
   * runs before any message is set, and `Exception#message` then answers
   * the class name, which becomes the message.
   */
  function TokenErrorAsWritten(msg: string := InvalidTokenMsg, exceptionType: string := InvalidTokenType): (e: Error)
    ensures e.TokenError? && e.msg == msg && e.exceptionType == exceptionType
    ensures e.message == TokenErrorClass
  {
    TokenError(TokenErrorClass, msg, exceptionType)
  }

  /** `TokenMissing.new(msg, exception_type)` as written: the message is the class name. */
  function TokenMissingAsWritten(msg: string := MissingTokenMsg, exceptionType: string := MissingTokenType): (e: Error)
    ensures e.TokenMissing? && e.msg == msg && e.exceptionType == exceptionType
    ensures e.message == TokenMissingClass
  {
    TokenMissing(TokenMissingClass, msg, exceptionType)
  }

  /** The documented `raise TokenError.new "Message", "Error type"` then `e.message #=> Message` does not hold as written. */
  lemma TokenErrorMessageIsClassName()
    ensures TokenErrorAsWritten("Message", "Error type").message != "Message"
    ensures NewTokenError("Message", "Error type").message == "Message"
    ensures TokenMissingAsWritten("Message", "Error type").message != "Message"
  {
    assert TokenErrorClass[0] != "Message"[0];
    assert TokenMissingClass[0] != "Message"[0];
  }

  /** The `meta.status` of the account endpoint's response for a token, when it has one. */
  type Probe = string -> Option<int>

  /**
   * `check_status(token)`: whether the account endpoint accepts `token`.
   * A bare `raise TokenError` builds the record as written, whose message
   * is the class name.
   */
  function CheckStatus(token: string, probe: Probe): (r: Result<bool>)
    ensures |token| != TokenLength ==> r == Err(TokenErrorAsWritten())
    ensures |token| == TokenLength && probe(token).None? ==> r == Err(TokenErrorAsWritten())
    ensures r.Ok? <==> |token| == TokenLength && probe(token).Some?
    ensures r.Ok? ==> (r.value <==> probe(token) == Some(200))
  {
    if |token| != TokenLength then Err(TokenErrorAsWritten())
    else match probe(token)
      case None => Err(TokenErrorAsWritten())
      case Some(status) => Ok(status == 200)
  }

  /** `error_handle(token)`: returns only for a token the account endpoint answers with status 200. */
  function ErrorHandle(token: string, probe: Probe): (r: Result<()>)
    ensures r.Ok? <==> |token| == TokenLength && probe(token) == Some(200)
    ensures r.Err? ==> r.error == TokenErrorAsWritten()
  {
    if |token| != TokenLength then Err(TokenErrorAsWritten())
    else match CheckStatus(token, probe)
      case Err(e) => Err(e)
      case Ok(accepted) => if accepted then Ok(()) else Err(TokenErrorAsWritten())
  }

  /**
   * What `error_handle` raises carries the default `msg` and
   * `exception_type`, but answers the class name as its message, so it is
   * not the documented error.
   */
  lemma RaisedTokenErrorMessage(token: string, probe: Probe)
    requires ErrorHandle(token, probe).Err?
    ensures var e := ErrorHandle(token, probe).error;
      e.TokenError? && e.msg == InvalidTokenMsg && e.exceptionType == InvalidTokenType &&
      e.message == TokenErrorClass && e != NewTokenError()
  {
    assert |TokenErrorClass| != |InvalidTokenMsg|;
  }

  /** A token of the wrong length is refused before any request: the probe's answer plays no part. */
  lemma ShortTokenNeedsNoProbe(token: string, p: Probe, q: Probe)
    requires |token| != TokenLength
    ensures CheckStatus(token, p) == CheckStatus(token, q)
    ensures ErrorHandle(token, p) == ErrorHandle(token, q)
  {
  }

  /** `error_handle` returns exactly when `check_status` returns `true`; it raises `TokenError` otherwise. */
  lemma ErrorHandleAgreesWithCheckStatus(token: string, probe: Probe)
    ensures ErrorHandle(token, probe).Ok? <==> CheckStatus(token, probe) == Ok(true)
    ensures ErrorHandle(token, probe).Err? ==> ErrorHandle(token, probe).error.TokenError?
  {
  }
}
