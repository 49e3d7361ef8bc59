/**
 * `Genius::Artists`: `artists` (one artist) and `artists_songs` (an
 * artist's songs), with the option checks `validate`, `validate_sort` and
 * `validate_page_per_page`. Option hashes are keyed by the symbol names.
 */
module Artists {
  import opened Wrappers
  import opened Values
  import opened Errors
  import opened Auth
  import opened Requests
  import opened Guards
  import opened OptionsHelper

  const IdNil: string := "`id` can't be nil!"
  const NegativePage: string := "`per_page` or `page` can't be negative."
  const NoNegative: string := "undefined method `negative?'"

  /** `sort_values` of `artists_songs`. */
  const SortValues: seq<string> := ["title", "popularity"]

  /** The options `artists_songs` forwards as query parameters. */
  const ForwardedKeys: seq<string> := ["sort", "per_page", "page"]

  function ArtistUrl(id: string): string
  {
    Resource + "/artists/" + id
  }

  /** `artists(token:, id:)` */
  function Artists(token: Option<string>, id: Option<string>, session: Option<string>, validate: Validator): (r: Result<Request>)
    ensures token.Some? && validate(token).Err? ==> r == Err(validate(token).error)
    ensures token.None? && Authorized(session, validate).Err? ==> r == Err(Authorized(session, validate).error)
    ensures r.Ok? <==>
      id.Some? && (if token.Some? then validate(token).Ok? else Authorized(session, validate).Ok?)
    ensures r.Err? && !r.error.ArgumentError? ==>
      validate(TokenExt(token, session)).Err? && r.error == validate(TokenExt(token, session)).error
    ensures r.Ok? ==> r.value == Request("get", ArtistUrl(id.value), TokenExt(token, session), "", None)
    ensures id.None? && (if token.Some? then validate(token).Ok? else Authorized(session, validate).Ok?) ==>
      r == Err(ArgumentError(IdNil))
  {
    var checked := if token.None? then Advisory(session, validate) else validate(token);
    match checked
    case Err(e) => Err(e)
    case Ok(_) =>
      if id.None? then Err(ArgumentError(IdNil))
      else Ok(Request("get", ArtistUrl(id.value), TokenExt(token, session), "", None))
  }

  /**
   * A missing `id` raises `ArgumentError` once the token passes, or, with no
   * token, whenever `authorized?` answers at all: its `false` is discarded,
   * so an unauthorized session gets the same `ArgumentError`.
   */
  lemma ArtistsIdRequired(token: Option<string>, session: Option<string>, validate: Validator)
    requires token.Some? ==> validate(token).Ok?
    requires token.None? ==> Authorized(session, validate).Ok?
    ensures Artists(token, None, session, validate) == Err(ArgumentError(IdNil))
  {
  }

  function DigitChar(d: nat): char
    requires d < 10
  {
    "0123456789"[d]
  }

  function Digits(n: nat): string
    decreases n
  {
    if n < 10 then [DigitChar(n)] else Digits(n / 10) + [DigitChar(n % 10)]
  }

  /** `"#{v}"` for the values a sort option can hold. */
  function Show(v: Value): string
  {
    match v
    case Nil => ""
    case Bool(b) => if b then "true" else "false"
    case Int(i) => if i < 0 then "-" + Digits(-i) else Digits(i)
    case Str(s) => s
    case Arr(_) => "[...]"
    case Hash(_) => "{...}"
  }

  function Join(xs: seq<string>, sep: string): string
  {
    if |xs| == 0 then "" else if |xs| == 1 then xs[0] else xs[0] + sep + Join(xs[1..], sep)
  }

  function SortMessage(sort: Value, sortValues: seq<string>): string
  {
    "`sort` can't be " + Show(sort) + ". Possible values: " + Join(sortValues, ", ") + "."
  }

  /** `sort_values.include?(sort)`: only a String equal to one of them. */
  predicate Listed(sort: Value, sortValues: seq<string>)
  {
    sort.Str? && sort.s in sortValues
  }

  /** `validate_sort(sort, sort_values)`: a `nil` (or `false`) sort or a listed one passes. */
  function ValidateSort(sort: Value, sortValues: seq<string>): (r: Result<()>)
    ensures r.Ok? <==> !Truthy(sort) || Listed(sort, sortValues)
    ensures r.Err? ==> r.error.ArgumentError?
  {
    if Truthy(sort) && !Listed(sort, sortValues) then Err(ArgumentError(SortMessage(sort, sortValues)))
    else Ok(())
  }

  /**
   * `validate_page_per_page(v)`: `v&.negative?` raises `ArgumentError` for
   * a negative Integer, skips `nil`, and is `NoMethodError` on anything
   * that has no `negative?`.
   */
  function ValidatePagePerPage(v: Value): (r: Result<()>)
    ensures r.Ok? <==> v.Nil? || (v.Int? && v.i >= 0)
    ensures r == Err(ArgumentError(NegativePage)) <==> v.Int? && v.i < 0
    ensures r.Err? && !r.error.ArgumentError? ==> r.error.NoMethodError?
  {
    match v
    case Nil => Ok(())
    case Int(i) => if i < 0 then Err(ArgumentError(NegativePage)) else Ok(())
    case _ => Err(NoMethodError(NoNegative))
  }

  /** `validate(sort_values, sort:, per_page:, page:)`: sort, then per_page, then page; the first failure raises. */
  function Validate(sortValues: seq<string>, sort: Value, perPage: Value, page: Value): (r: Result<()>)
    ensures r.Ok? <==> ValidateSort(sort, sortValues).Ok? && ValidatePagePerPage(perPage).Ok? && ValidatePagePerPage(page).Ok?
    ensures ValidateSort(sort, sortValues).Err? ==> r == ValidateSort(sort, sortValues)
    ensures ValidateSort(sort, sortValues).Ok? && ValidatePagePerPage(perPage).Err? ==> r == ValidatePagePerPage(perPage)
    ensures ValidateSort(sort, sortValues).Ok? && ValidatePagePerPage(perPage).Ok? ==> r == ValidatePagePerPage(page)
  {
    match ValidateSort(sort, sortValues)
    case Err(e) => Err(e)
    case Ok(_) =>
      match ValidatePagePerPage(perPage)
      case Err(e) => Err(e)
      case Ok(_) => ValidatePagePerPage(page)
  }

  /** `artists_songs` accepts exactly `"title"` and `"popularity"` among truthy sorts, whatever the pages. */
  lemma SongsSortValues(sort: Value)
    requires Truthy(sort)
    ensures ValidateSort(sort, SortValues).Ok? <==> sort == Str("title") || sort == Str("popularity")
  {
  }

  /** An invalid sort is reported even when the pages are invalid too. */
  lemma SortCheckedFirst(sort: Value, perPage: Value, page: Value)
    requires ValidateSort(sort, SortValues).Err?
    ensures Validate(SortValues, sort, perPage, page) == Err(ArgumentError(SortMessage(sort, SortValues)))
  {
  }

  /** What `artists_songs` does once past its early return: lines after the guard, against `url`. */
  function ListSongs(url: string, token: Option<string>, options: seq<Entry>, session: Option<string>, validate: Validator): (r: Result<Option<Request>>)
    ensures token.Some? && validate(token).Err? ==> r == Err(validate(token).error)
    ensures r.Ok? <==>
      (token.None? || validate(token).Ok?) &&
      Validate(SortValues, Get(options, "sort"), Get(options, "per_page"), Get(options, "page")).Ok?
    ensures r.Ok? ==> r.value == Some(Request("get", url, TokenExt(token, session), Query(Keys(options), ForwardedKeys), None))
    ensures var v := Validate(SortValues, Get(options, "sort"), Get(options, "per_page"), Get(options, "page"));
      (token.None? || validate(token).Ok?) && v.Err? ==> r == Err(v.error)
  {
    match (if token.Some? then validate(token) else Ok(()))
    case Err(e) => Err(e)
    case Ok(_) =>
      match Validate(SortValues, Get(options, "sort"), Get(options, "per_page"), Get(options, "page"))
      case Err(e) => Err(e)
      case Ok(_) => Ok(Some(Request("get", url, TokenExt(token, session), Query(Keys(options), ForwardedKeys), None)))
  }

  /** `artists_songs(token:, id:, options:)` as written. */
  function ArtistsSongs(token: Option<string>, id: Option<string>, options: seq<Entry>, session: Option<string>, validate: Validator): Result<Option<Request>>
  {
    if token.None? then
      match SkipAsWritten(session, validate)
      case Err(e) => Err(e)
      case Ok(skip) => if skip then Ok(None) else ListSongs(ArtistUrl(Interp(id)), token, options, session, validate)
    else ListSongs(ArtistUrl(Interp(id)), token, options, session, validate)
  }

  /**
   * `artists_songs` as evidently intended: without a token it goes on with
   * an authorized session, and it asks for the artist's songs.
   */
  function ArtistsSongsCorrected(token: Option<string>, id: Option<string>, options: seq<Entry>, session: Option<string>, validate: Validator): Result<Option<Request>>
  {
    var url := ArtistUrl(Interp(id)) + "/songs";
    if token.None? then
      match Skip(session, validate)
      case Err(e) => Err(e)
      case Ok(skip) => if skip then Ok(None) else ListSongs(url, token, options, session, validate)
    else ListSongs(url, token, options, session, validate)
  }

  /**
   * With a valid token, an unlisted truthy sort raises `ArgumentError` naming
   * the allowed values, and with an acceptable sort a negative `per_page` or
   * `page` raises `ArgumentError`; the corrected endpoint raises the same.
   */
  lemma ArtistsSongsRejectsOptions(t: string, id: Option<string>, options: seq<Entry>, session: Option<string>, validate: Validator)
    requires validate(Some(t)).Ok?
    ensures var sort := Get(options, "sort");
      Truthy(sort) && !Listed(sort, SortValues) ==>
        ArtistsSongs(Some(t), id, options, session, validate) == Err(ArgumentError(SortMessage(sort, SortValues))) &&
        ArtistsSongsCorrected(Some(t), id, options, session, validate) == Err(ArgumentError(SortMessage(sort, SortValues)))
    ensures var perPage := Get(options, "per_page");
      ValidateSort(Get(options, "sort"), SortValues).Ok? && perPage.Int? && perPage.i < 0 ==>
        ArtistsSongs(Some(t), id, options, session, validate) == Err(ArgumentError(NegativePage)) &&
        ArtistsSongsCorrected(Some(t), id, options, session, validate) == Err(ArgumentError(NegativePage))
    ensures var page := Get(options, "page");
      ValidateSort(Get(options, "sort"), SortValues).Ok? && ValidatePagePerPage(Get(options, "per_page")).Ok? &&
      page.Int? && page.i < 0 ==>
        ArtistsSongs(Some(t), id, options, session, validate) == Err(ArgumentError(NegativePage)) &&
        ArtistsSongsCorrected(Some(t), id, options, session, validate) == Err(ArgumentError(NegativePage))
  {
  }

  /** As written, `artists_songs` without a token never makes a request, however valid the session. */
  lemma ArtistsSongsNilTokenNeverRequests(id: Option<string>, options: seq<Entry>, session: Option<string>, validate: Validator)
    ensures var r := ArtistsSongs(None, id, options, session, validate);
      r == Ok(None) || (r.Err? && !r.error.TokenError?)
  {
  }

  /** As written, the request goes to `/artists/:id`, the single artist, not to its songs. */
  lemma ArtistsSongsPathLacksSongs(t: string, options: seq<Entry>, session: Option<string>, validate: Validator)
    requires validate(Some(t)).Ok?
    requires Validate(SortValues, Get(options, "sort"), Get(options, "per_page"), Get(options, "page")).Ok?
    ensures ArtistsSongs(Some(t), Some("1"), options, session, validate) ==
      Ok(Some(Request("get", Resource + "/artists/1", Some(t), Query(Keys(options), ForwardedKeys), None)))
  {
    assert ArtistUrl("1") == Resource + "/artists/1" by {
      assert "/artists/" + "1" == "/artists/1";
    }
  }

  /**
   * Corrected: without a token, an authorized session makes the request,
   * sent with the session token to `/artists/:id/songs`; an unauthorized
   * one returns `nil`.
   */
  lemma ArtistsSongsCorrectedSession(id: Option<string>, options: seq<Entry>, session: Option<string>, validate: Validator)
    ensures (validate(session).Ok? &&
      Validate(SortValues, Get(options, "sort"), Get(options, "per_page"), Get(options, "page")).Ok?) ==>
      ArtistsSongsCorrected(None, id, options, session, validate) ==
        Ok(Some(Request("get", ArtistUrl(Interp(id)) + "/songs", session, Query(Keys(options), ForwardedKeys), None)))
    ensures validate(session).Err? && validate(session).error.TokenError? ==>
      ArtistsSongsCorrected(None, id, options, session, validate) == Ok(None)
  {
  }

  /** With a token, the written and the corrected endpoint differ only in the path. */
  lemma ArtistsSongsWithToken(t: string, id: Option<string>, options: seq<Entry>, session: Option<string>, validate: Validator)
    ensures var written := ArtistsSongs(Some(t), id, options, session, validate);
      var corrected := ArtistsSongsCorrected(Some(t), id, options, session, validate);
      written.Ok? <==> corrected.Ok?
    ensures var written := ArtistsSongs(Some(t), id, options, session, validate);
      var corrected := ArtistsSongsCorrected(Some(t), id, options, session, validate);
      written.Err? ==> corrected == written
    ensures var corrected := ArtistsSongsCorrected(Some(t), id, options, session, validate);
      corrected.Ok? && corrected.value.Some? ==> corrected.value.value.url == ArtistUrl(Interp(id)) + "/songs"
  {
  }

  /** Only `sort`, `per_page` and `page` reach the query, in the options' order, each with an empty value. */
  lemma SongsParams(options: seq<Entry>)
    requires forall i :: 0 <= i < |options| ==> NoAmp(options[i].key)
    ensures Fields(Query(Keys(options), ForwardedKeys)) == Assignments(Filter(Keys(options), ForwardedKeys))
  {
    FieldsOfQuery(Keys(options), ForwardedKeys);
  }
}
