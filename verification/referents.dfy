/**
 * `Genius::Referents.referents`: the early return without a token, the
 * token check, the check that a song and a web page are not both asked
 * for, and the forwarded query parameters.
 */
module Referents {
  import opened Wrappers
  import opened Values
  import opened Errors
  import opened Auth
  import opened Requests
  import opened Guards
  import opened OptionsHelper

  /** `ENDPOINT` */
  const Endpoint: string := Resource + "/referents"

  const BothIds: string := "You may pass only one of song_id and web_page_id, not both!"

  /** The options `referents` forwards as query parameters. */
  const ForwardedKeys: seq<string> := ["created_by_id", "text_format", "per_page", "page"]

  /** The key the exclusion check looks for, as written. */
  const WebPageKeyAsWritten: string := "web_page"

  /** The key the endpoint documents and the exclusion is meant for. */
  const WebPageKey: string := "web_page_id"

  /**
   * What `referents` does once past its early return, with `pageKey` the
   * key checked against `song_id`.
   */
  function Fetch(token: Option<string>, options: seq<Entry>, session: Option<string>, probe: Probe, pageKey: string): (r: Result<Option<Request>>)
    ensures token.Some? && ErrorHandle(token.value, probe).Err? ==> r == Err(TokenErrorAsWritten())
    ensures r.Ok? <==>
      (token.None? || ErrorHandle(token.value, probe).Ok?) && !(HasKey(options, pageKey) && HasKey(options, "song_id"))
    ensures r.Err? ==> r == Err(TokenErrorAsWritten()) || r == Err(ArgumentError(BothIds))
    ensures (token.None? || ErrorHandle(token.value, probe).Ok?) && HasKey(options, pageKey) && HasKey(options, "song_id") ==>
      r == Err(ArgumentError(BothIds))
    ensures r.Ok? ==> r.value == Some(Request("get", Endpoint, TokenExt(token, session), Query(Keys(options), ForwardedKeys), None))
  {
    match (if token.Some? then ErrorHandle(token.value, probe) else Ok(()))
    case Err(e) => Err(e)
    case Ok(_) =>
      if HasKey(options, pageKey) && HasKey(options, "song_id") then Err(ArgumentError(BothIds))
      else Ok(Some(Request("get", Endpoint, TokenExt(token, session), Query(Keys(options), ForwardedKeys), None)))
  }

  /** `referents(token:, options:)` as written. */
  function Referents(token: Option<string>, options: seq<Entry>, session: Option<string>, validate: Validator, probe: Probe): Result<Option<Request>>
  {
    if token.None? then
      match SkipAsWritten(session, validate)
      case Err(e) => Err(e)
      case Ok(skip) => if skip then Ok(None) else Fetch(token, options, session, probe, WebPageKeyAsWritten)
    else Fetch(token, options, session, probe, WebPageKeyAsWritten)
  }

  /**
   * `referents` as evidently intended: an authorized session goes on
   * without a token, and `web_page_id` is what may not come with `song_id`.
   */
  function ReferentsCorrected(token: Option<string>, options: seq<Entry>, session: Option<string>, validate: Validator, probe: Probe): Result<Option<Request>>
  {
    if token.None? then
      match Skip(session, validate)
      case Err(e) => Err(e)
      case Ok(skip) => if skip then Ok(None) else Fetch(token, options, session, probe, WebPageKey)
    else Fetch(token, options, session, probe, WebPageKey)
  }

  /** As written, `referents` without a token never makes a request, however valid the session. */
  lemma ReferentsNilTokenNeverRequests(options: seq<Entry>, session: Option<string>, validate: Validator, probe: Probe)
    ensures var r := Referents(None, options, session, validate, probe);
      r == Ok(None) || (r.Err? && !r.error.TokenError?)
  {
  }

  /** With a token, a failing `error_handle` wins over the exclusion check. */
  lemma TokenCheckedFirst(t: string, options: seq<Entry>, session: Option<string>, validate: Validator, probe: Probe)
    requires ErrorHandle(t, probe).Err?
    ensures Referents(Some(t), options, session, validate, probe) == Err(TokenErrorAsWritten())
    ensures ReferentsCorrected(Some(t), options, session, validate, probe) == Err(TokenErrorAsWritten())
  {
  }

  /** Options naming both `song_id` and `web_page` raise `ArgumentError`. */
  lemma SongAndWebPageRejected(t: string, options: seq<Entry>, session: Option<string>, validate: Validator, probe: Probe)
    requires ErrorHandle(t, probe).Ok?
    requires HasKey(options, "song_id") && HasKey(options, WebPageKeyAsWritten)
    ensures Referents(Some(t), options, session, validate, probe) == Err(ArgumentError(BothIds))
  {
  }

  const SongAndPage: seq<Entry> := [Entry("song_id", Int(1)), Entry(WebPageKey, Int(2))]

  /** As written, `song_id` together with `web_page_id`, which the message names, is let through. */
  lemma WebPageIdWithSongIdAccepted(t: string, session: Option<string>, validate: Validator, probe: Probe)
    requires ErrorHandle(t, probe).Ok?
    ensures Referents(Some(t), SongAndPage, session, validate, probe).Ok?
    ensures ReferentsCorrected(Some(t), SongAndPage, session, validate, probe) == Err(ArgumentError(BothIds))
  {
    assert SongAndPage[0].key == "song_id";
    assert SongAndPage[1].key == WebPageKey;
    assert !HasKey(SongAndPage, WebPageKeyAsWritten) by {
      assert SongAndPage[0].key != WebPageKeyAsWritten;
      assert SongAndPage[1].key != WebPageKeyAsWritten by {
        assert |WebPageKey| != |WebPageKeyAsWritten|;
      }
    }
  }

  /** Corrected: exactly the options naming both `song_id` and `web_page_id` are refused. */
  lemma CorrectedExclusion(t: string, options: seq<Entry>, session: Option<string>, validate: Validator, probe: Probe)
    requires ErrorHandle(t, probe).Ok?
    ensures ReferentsCorrected(Some(t), options, session, validate, probe).Ok? <==>
      !(HasKey(options, "song_id") && HasKey(options, WebPageKey))
  {
  }

  /**
   * Corrected: without a token, an authorized session makes the request
   * with the session token, and an unauthorized one returns `nil`.
   */
  lemma CorrectedSession(options: seq<Entry>, session: Option<string>, validate: Validator, probe: Probe)
    requires !(HasKey(options, "song_id") && HasKey(options, WebPageKey))
    ensures validate(session).Ok? ==>
      ReferentsCorrected(None, options, session, validate, probe) ==
        Ok(Some(Request("get", Endpoint, session, Query(Keys(options), ForwardedKeys), None)))
    ensures validate(session).Err? && validate(session).error.TokenError? ==>
      ReferentsCorrected(None, options, session, validate, probe) == Ok(None)
  {
  }

  /**
   * Only `created_by_id`, `text_format`, `per_page` and `page` are
   * forwarded: `song_id` and `web_page_id` never reach the query.
   */
  lemma ReferentsParams(options: seq<Entry>)
    requires forall i :: 0 <= i < |options| ==> NoAmp(options[i].key)
    ensures Fields(Query(Keys(options), ForwardedKeys)) == Assignments(Filter(Keys(options), ForwardedKeys))
    ensures "song_id" !in Filter(Keys(options), ForwardedKeys)
    ensures WebPageKey !in Filter(Keys(options), ForwardedKeys)
  {
    FieldsOfQuery(Keys(options), ForwardedKeys);
    FilterAllowed(Keys(options), ForwardedKeys);
  }
}
