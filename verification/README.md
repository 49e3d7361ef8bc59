# genius-api in Dafny

A Dafny model of the logic in the Ruby gem `genius-api` (a client for the
Genius lyrics API) that runs before any HTTP request, with its properties
proved. The modelled parts are:

- **`Hash#deep_find`** (`deep_find.dfy`): the recursive search for every
  value stored under a key in nested hashes and arrays of hashes. It follows
  the Ruby code's steps:
  - collect the top-level value, then one result per nested hash;
  - `compact`, then drop empty arrays;
  - `uniq!` under `eql?`;
  - unwrap a single survivor.

  Ruby data is the `Values.Value` datatype (nil, booleans, integers, strings,
  arrays, insertion-ordered hashes). The method `DeepFind.DeepFind` keeps the
  source's loops over the entries and array elements. It is proved equal to
  the recursive specification `DeepFind.Find`, and the lemmas are about
  `Find`. `deep_find_examples.dfy` replays the documented and specified
  examples.
- **`String#unescape`** (`unescape.dfy`): two `gsub` passes with a negative
  lookbehind. Each is a left-to-right rewrite in which the lookbehind looks at
  the pass's own input.
- **`options_helper`** (`options_helper.dfy`): the query-string builder. It is
  a method with the source's loop, proved equal to `Query`. A decoder
  (`Fields`) shows which keys were emitted and in what order.
- **Token errors and validation** (`errors.dfy`): the `TokenError` and
  `TokenMissing` records, `check_status` and `error_handle`. The HTTP probe of
  the account endpoint is a function parameter, `Probe`, which yields the
  response's `meta.status` or nothing.
- **The session** (`authorization.dfy`): `Genius::Auth` is a class
  `Auth.Session` whose one field `token` is changed by `SetToken` (`token=`,
  `login=`) and by `Logout` (`logout!`), and is read by `IsAuthorized`
  (`authorized?`). Also here: `token_ext`. `Errors.validate_token` is a
  function parameter, `Validator`.
- **The endpoints' guards** (`guards.dfy`, `annotations.dfy`, `artists.dfy`,
  `referents.dfy`): the credential checks, the argument checks and the
  request each endpoint would send. The request is a `Requests.Request`
  value holding the verb, URL, token, query and body; it is never sent.

Ruby symbols in option hashes are represented by their names as strings.

Subtleties of the code that the model keeps:

- `deep_find` does not flatten the results of recursive calls.
- It passes the default `uniq: true` to recursive calls rather than the
  caller's flag.
- It searches only one level of arrays.
- `authorized?` turns only a `TokenError` into `false`; other exceptions
  escape.
- `annotations` passes its own method name to `authorized?` as the token to
  check (annotations.rb line 174).

## Model

| member | source | states |
|---|---|---|
| Values.Keys | lib/extensions/options_helper.rb:12 | `each_key` yields every key of the hash, in insertion order |
| Values.Lookup | lib/extensions/deep_find.rb:26 | a lookup finds a value exactly when the key is present, and the value found is stored under that key |
| Values.Get | lib/extensions/deep_find.rb:26 | `self[key]` is `nil` for a missing key |
| Values.LookupDistinct | lib/extensions/deep_find.rb:26 | in a hash with distinct keys, looking up the i-th key yields the i-th value |
| Values.SameReflexive | lib/extensions/deep_find.rb:36 | `eql?` is reflexive on well-formed values, which `uniq!` relies on |
| Values.SameTransitive | lib/extensions/deep_find.rb:36 | `eql?` is transitive through a well-formed value, so an element `eql?` to a dropped one is `eql?` to a kept one |
| DeepFind.DeepFind | lib/extensions/deep_find.rb:24-38 | the loop-based search returns exactly the recursive specification `Find` for every hash, key and `uniq` flag; the receiver is an immutable value and is not changed |
| DeepFind.Find | lib/extensions/deep_find.rb:24-38 | the specification of `deep_find`: `Unwrap` of the matches; its properties are FindKept, FindEmptyIffAbsent, KeyNowhereIsEmpty, TopLevelFirst and SingleHitUnwrapped |
| DeepFind.Compact | lib/extensions/deep_find.rb:33-35 | `compact.delete_if` for empty arrays; its properties are CompactSound, CompactComplete, CompactNonEmpty, CompactFirst, CompactIdentity and CompactConcat |
| DeepFind.Uniq | lib/extensions/deep_find.rb:36 | `uniq!` under `eql?`; its properties are UniqSound, UniqComplete, UniqAtKeptPositions, UniqKeepsOnlyFirsts, UniqKeepsEveryFirst and UniqIdentity |
| DeepFind.Unwrap | lib/extensions/deep_find.rb:37 | the final unwrap; its properties are UnwrapEmpty and SingleHitUnwrapped |
| DeepFind.AnyKeptConcat | lib/extensions/deep_find.rb:33-35 | a concatenation has a surviving candidate exactly when one of its parts has |
| DeepFind.AnyKeptSingleton | lib/extensions/deep_find.rb:33-35 | a single candidate survives exactly when it is neither `nil` nor `[]` |
| DeepFind.CompactSound | lib/extensions/deep_find.rb:33-35 | every survivor of `compact.delete_if` is a non-nil, non-empty candidate of the input |
| DeepFind.CompactComplete | lib/extensions/deep_find.rb:33-35 | every non-nil, non-empty candidate survives, including real values that are `[]` being dropped |
| DeepFind.CompactNonEmpty | lib/extensions/deep_find.rb:33-35 | the filtered list is non-empty exactly when some candidate is neither `nil` nor `[]` |
| DeepFind.CompactFirst | lib/extensions/deep_find.rb:33-35 | a surviving first candidate stays first |
| DeepFind.CompactIdentity | lib/extensions/deep_find.rb:33-35 | filtering keeps a list with no `nil` or `[]` unchanged |
| DeepFind.CompactConcat | lib/extensions/deep_find.rb:33-35 | filtering distributes over concatenation, so order is kept |
| DeepFind.CompactSingleton | lib/extensions/deep_find.rb:33-35 | a single candidate is kept exactly when it is neither `nil` nor `[]` |
| DeepFind.UniqSingleton | lib/extensions/deep_find.rb:36 | `uniq!` keeps a one-element list |
| DeepFind.LeafElems | lib/extensions/deep_find.rb:29-30 | an array holding no hash contributes no recursive results |
| DeepFind.LeafEntryRaw | lib/extensions/deep_find.rb:26-31 | a one-entry hash whose value holds no hash has only the top-level candidate |
| DeepFind.LeafEntryFind | lib/extensions/deep_find.rb:24-38 | such a hash yields its value when the key matches and survives filtering, and `[]` otherwise |
| DeepFind.UniqSound | lib/extensions/deep_find.rb:36 | `uniq!` returns pairwise non-`eql?` elements taken from its input, never more than it was given |
| DeepFind.UniqComplete | lib/extensions/deep_find.rb:36 | every input element is `eql?` to some element that `uniq!` keeps |
| DeepFind.UniqFirst | lib/extensions/deep_find.rb:36 | `uniq!` keeps the first element in front |
| DeepFind.UniqAtKeptPositions | lib/extensions/deep_find.rb:36 | `uniq!` returns the input at strictly increasing positions, so the input order is kept |
| DeepFind.UniqKeepsOnlyFirsts | lib/extensions/deep_find.rb:36 | each kept element has no `eql?` element before it in the input |
| DeepFind.UniqKeepsEveryFirst | lib/extensions/deep_find.rb:36 | each element with no `eql?` element before it is kept; with the two rows above, `uniq!` keeps exactly the first of every `eql?` group, in order |
| DeepFind.UniqIdentity | lib/extensions/deep_find.rb:36 | a list with no duplicates is unchanged |
| DeepFind.MatchesSpec | lib/extensions/deep_find.rb:33-36 | the matches are all non-nil and non-empty; with `uniq` they are duplicate-free; without it they are exactly the filtered candidates; they are non-empty exactly when a candidate survives |
| DeepFind.UnwrapEmpty | lib/extensions/deep_find.rb:37 | unwrapping gives `[]` exactly for no matches, and a kept value otherwise |
| DeepFind.FindKept | lib/extensions/deep_find.rb:24-38 | the result is a real value exactly when a non-nil, non-empty value sits under the key in the hash or in a hash reachable through hash values and one level of arrays |
| DeepFind.NestedKept | lib/extensions/deep_find.rb:27-31 | the recursive results of the first n entries hold a real value exactly when one of those entries leads to one |
| DeepFind.ChildrenKept | lib/extensions/deep_find.rb:28-30 | a hash value, or an array's hash elements, contribute a real value exactly when one is present below them |
| DeepFind.ElemsKept | lib/extensions/deep_find.rb:29-30 | the first n array elements contribute a real value exactly when one of them is a hash in which it is present |
| DeepFind.FindEmptyIffAbsent | lib/extensions/deep_find.rb:33-37 | the result is `[]`, not `nil`, exactly when no real value is present under the key (both directions) |
| DeepFind.NotOccursNotPresent | lib/extensions/deep_find.rb:27-31 | a key that occurs nowhere in the searched part of the hash has no value there |
| DeepFind.NotOccursInNotPresentIn | lib/extensions/deep_find.rb:28-30 | the same for a value below a hash |
| DeepFind.KeyNowhereIsEmpty | lib/extensions/deep_find.rb:33-37 | a key that occurs nowhere gives `[]`, for either `uniq` |
| DeepFind.TopLevelFirst | lib/extensions/deep_find.rb:26 | a real top-level value is the first match, and when it is the only match it is returned as it is, hash or not |
| DeepFind.Hits | lib/extensions/deep_find.rb:24-38 | an independent reference: every value other than `nil` and `[]` held under the key by a searched hash, flattened, in search order; each one is kept |
| DeepFind.HitsMatch | lib/extensions/deep_find.rb:24-35 | with at most one hit in all the searched hashes, the candidates left after `compact.delete_if` are exactly the hits |
| DeepFind.SingleHitUnwrapped | lib/extensions/deep_find.rb:24-38 | a key held with a real value by exactly one searched hash, every other occurrence holding `nil` or `[]`, returns that value unwrapped for either `uniq`; no hit at all returns `[]` |
| DeepFindExamples.UniqPair | lib/extensions/deep_find.rb:36 | `uniq!` on two elements keeps one exactly when they are `eql?` |
| DeepFindExamples.MusiciansRaw | spec/extensions/hash_spec.rb:9-11 | the candidates for the `musicians` hash: `nil` at top level, then one result per artist, in order |
| DeepFindExamples.CompactFour | lib/extensions/deep_find.rb:33-35 | filtering four candidates keeps the non-nil, non-empty ones in order |
| DeepFindExamples.ArtistsFind | spec/extensions/hash_spec.rb:9-11 | each artist's hash yields its album's songs for the album's key and `[]` for any other |
| DeepFindExamples.Find19 | spec/extensions/hash_spec.rb:19 | `musicians.deep_find("19")` is Adele's song list, for either `uniq` (lines 19 and 29) |
| DeepFindExamples.Find28 | spec/extensions/hash_spec.rb:20-22 | `musicians.deep_find("28")` is both artists' song lists in order, for either `uniq` (lines 20-22 and 30-32) |
| DeepFindExamples.FindAdele | spec/extensions/hash_spec.rb:38 | a top-level key returns its hash value unwrapped |
| DeepFindExamples.Find30 | spec/extensions/hash_spec.rb:42 | an absent key gives `[]` |
| DeepFindExamples.PairRaw | lib/extensions/deep_find.rb:26-31 | the candidates of a two-entry hash whose second value is a hash: the top-level value, then that hash's result |
| DeepFindExamples.PairCandidates | lib/extensions/deep_find.rb:26-31 | the same with the searched key on the first entry |
| DeepFindExamples.TwinMatches | lib/extensions/deep_find.rb:36-37 | two equal candidates give one unwrapped value with `uniq`, and both without |
| DeepFindExamples.FindNewHash | spec/extensions/hash_spec.rb:23 | `{"a"=>b, "c"=>{"a"=>b}}.deep_find("a")` is `b` with `uniq` and `[b, b]` without (line 33) |
| DeepFindExamples.UniqNotPassedDown | lib/extensions/deep_find.rb:30 | `uniq: false` is not passed down: a nested hash's duplicates are merged anyway |
| DeepFindExamples.PairMatches | lib/extensions/deep_find.rb:33-37 | two different real candidates come back as a two-element array |
| DeepFindExamples.NotFlattened | lib/extensions/deep_find.rb:30 | a recursive result that is an array is pushed as one element, not spliced in |
| DeepFindExamples.OneArrayLevelSearched | lib/extensions/deep_find.rb:28-30 | a hash inside an array value is searched |
| DeepFindExamples.NestedArrayNotSearched | lib/extensions/deep_find.rb:28-30 | a hash inside an array inside an array is not searched |
| Unescape.Unescape | lib/extensions/unescape.rb:6-9 | the two passes in order; its properties are UnescapeNoBackslash, UnescapeLength and UnescapeEscapeQuotes |
| Unescape.Gsub | lib/extensions/unescape.rb:7-8 | one `gsub` pass with the one-character lookbehind; its properties are NoMatchUnchanged, GsubNoBackslash and RewriteLength |
| Unescape.Rewrite | lib/extensions/unescape.rb:7-8 | the left-to-right scan of a pass from position i; its properties are NoMatchUnchanged, RewriteLength and FirstPassUndoesEscape |
| Unescape.OccursAtFirst | lib/extensions/unescape.rb:7-8 | a pattern occurrence starts with the pattern's first character |
| Unescape.NoMatchUnchanged | lib/extensions/unescape.rb:7-8 | a pass with no match from position i on copies the rest of the string and replaces nothing |
| Unescape.GsubNoBackslash | lib/extensions/unescape.rb:7-8 | a pass whose pattern starts with a backslash leaves a backslash-free string unchanged |
| Unescape.UnescapeNoBackslash | lib/extensions/unescape.rb:6-9 | a string with no backslash is returned unchanged |
| Unescape.RewriteLength | lib/extensions/unescape.rb:7-8 | each replacement shortens the string by exactly one character |
| Unescape.UnescapeLength | lib/extensions/unescape.rb:6-9 | the output length is the input length minus the replacements of both passes, so never longer |
| Unescape.FirstPassUndoesEscape | lib/extensions/unescape.rb:7 | the first pass turns every `\"` that escaping produced back into `"` |
| Unescape.UnescapeEscapeQuotes | lib/extensions/unescape.rb:6-9 | `unescape` inverts quote escaping on backslash-free text |
| Unescape.UnescapeQuoteExample | lib/extensions/unescape.rb:7 | `a\"b` becomes `a"b` |
| Unescape.UnescapeDoubleExample | lib/extensions/unescape.rb:7-8 | the first pass's lookbehind leaves `\\"` alone, and the second pass turns it into `\"` |
| OptionsHelper.BuildParams | lib/extensions/options_helper.rb:9-16 | the loop's result is `Query` of the option keys: one `&key=` per allowed key, in the options' order, and `""` for no options |
| OptionsHelper.Query | lib/extensions/options_helper.rb:11-15 | the specification of the loop; its properties are FieldsOfQuery, QueryOfFilter, QueryLength, QueryStart and QueryNoneAllowed |
| OptionsHelper.Filter | lib/extensions/options_helper.rb:13 | the option keys that `include?` lets through, in order; its property is FilterAllowed |
| OptionsHelper.QueryStart | lib/extensions/options_helper.rb:13 | a non-empty query starts with `&` |
| OptionsHelper.Assignments | lib/extensions/options_helper.rb:13 | each key is paired with `=` and an empty value |
| OptionsHelper.NoAmpAssignment | lib/extensions/options_helper.rb:13 | appending `=` to a key adds no `&` |
| OptionsHelper.SegmentTail | lib/extensions/options_helper.rb:13 | a segment is `&`, then `key=`, then what follows |
| OptionsHelper.FieldsOfSegment | lib/extensions/options_helper.rb:13 | decoding a segment yields `key=` and then the rest's fields |
| OptionsHelper.FieldsOfQuery | lib/extensions/options_helper.rb:12-13 | decoding the query gives back exactly the allowed keys, in the options' order, each as `key=` with an empty value (`each_key` yields no value) |
| OptionsHelper.QueryOfFilter | lib/extensions/options_helper.rb:13 | keys not in `arry` contribute nothing |
| OptionsHelper.FilterAllowed | lib/extensions/options_helper.rb:13 | a key is emitted exactly when it is an option key and in `arry` |
| OptionsHelper.QueryLength | lib/extensions/options_helper.rb:12-15 | the query length is the sum of `len(key) + 2` over the allowed keys |
| OptionsHelper.QueryNoneAllowed | lib/extensions/options_helper.rb:13 | no allowed key gives `""` |
| Errors.NewTokenError | lib/genius/api/errors.rb:52-56 | corrected `TokenError.new`: the defaults are the invalid-token message and `token_invalid`; a given `msg` and `exception_type` are stored unchanged, and the message is `msg` |
| Errors.NewTokenMissing | lib/genius/api/errors.rb:69-73 | the same for `TokenMissing`, with defaults the missing-token message and `token_missing` |
| Errors.TokenErrorAsWritten | lib/genius/api/errors.rb:52-56 | as written: `msg` and `exception_type` are stored, but `super(message)` runs before any message is set, so the message is the class name |
| Errors.TokenMissingAsWritten | lib/genius/api/errors.rb:69-73 | the same for `TokenMissing` |
| Errors.TokenErrorMessageIsClassName | lib/genius/api/errors.rb:27-31 | the documented `TokenError.new "Message", "Error type"` does not have the message `"Message"`; the corrected form does |
| Errors.CheckStatus | lib/genius/api/errors.rb:85-91 | a token of length other than 64 raises `TokenError` before the probe; a missing status raises `TokenError`; otherwise the answer is whether the status is 200. The error raised is the record as written (`raise TokenError`), whose message is the class name |
| Errors.ErrorHandle | lib/genius/api/errors.rb:104-107 | returns normally exactly for a 64-character token whose probe status is 200, and raises the as-written `TokenError` in every other case |
| Errors.RaisedTokenErrorMessage | lib/genius/api/errors.rb:105-106 | what `error_handle` raises has the default `msg` and `exception_type` but the class name as its message, so it differs from the documented error |
| Errors.ShortTokenNeedsNoProbe | lib/genius/api/errors.rb:86 | for a token of the wrong length, the probe's answer makes no difference |
| Errors.ErrorHandleAgreesWithCheckStatus | lib/genius/api/errors.rb:104-107 | `error_handle` passes exactly when `check_status` answers `true`, and any failure is a `TokenError` |
| Auth.Authorized | lib/genius/api/authorization.rb:38-44 | `true` exactly when validation returns, `false` exactly when it raises `TokenError`; any other exception escapes unchanged |
| Auth.MalformedNotAuthorized | lib/genius/api/authorization.rb:38-44 | with a validator that refuses tokens of the wrong length (`EnforcesLength`), such a token is not authorized |
| Auth.NilNotAuthorized | lib/genius/api/authorization.rb:38-44 | with a validator that refuses `nil` (`RefusesNil`), an empty session is not authorized |
| Auth.TokenExt | lib/extensions/token_ext.rb:7-9 | the explicit token when given, otherwise the session token |
| Auth.Session.constructor | lib/genius/api/authorization.rb:9-10 | a fresh session has no token |
| Auth.Session.SetToken | lib/genius/api/authorization.rb:22-27 | the result is the validation's; the token is assigned only when validation returns, and on an error the previous token is kept (`login=` is the alias, line 56) |
| Auth.Session.IsAuthorized | lib/genius/api/authorization.rb:38-44 | `authorized?` on the session token: `true` when it validates, `false` on `TokenError`, never lets a `TokenError` escape, and reads but does not change the session |
| Auth.Session.Logout | lib/genius/api/authorization.rb:52-54 | afterwards the token is `nil`; on an empty session it changes nothing, so a second `logout!` is a no-op |
| Auth.LogoutThenInvalidLogin | spec/api/authorization_spec.rb:23-29 | after `logout!`, logging in with a malformed token raises `TokenError` and leaves the session empty; `authorized?` is then `false`, given `EnforcesLength` and `RefusesNil` |
| Auth.Lifecycle | spec/api/authorization_spec.rb:12-37 | a fresh session is not authorized, is after a valid login, and is not after `logout!`, given `RefusesNil` |
| Requests.Interp | lib/genius/api/annotations.rb:189 | string interpolation shows `nil` as nothing |
| Guards.Advisory | lib/genius/api/artists.rb:19 | a discarded `authorized?` call stops the method only with a non-`TokenError` exception, exactly when `authorized?` raises |
| Guards.SkipAsWritten | lib/genius/api/artists.rb:43 | as written, `!Auth.authorized?.nil?` holds whenever `authorized?` answers, so the guard always returns early |
| Guards.Skip | lib/genius/api/artists.rb:43 | corrected guard: return early exactly when the session is not authorized, and go on exactly when it is |
| Guards.SkipDiffers | lib/genius/api/referents.rb:29 | the written and corrected guards differ exactly on an authorized session |
| Annotations.CheckCredentials | lib/genius/api/annotations.rb:174-175 | with a token, `error_handle` decides; without one, `authorized?` is asked about the method name, and only its non-`TokenError` exceptions stop the call |
| Annotations.Annotations | lib/genius/api/annotations.rb:173-201 | the whole method: credentials, then dispatch; its properties are TokenErrorFirst and AnnotationsRequest |
| Annotations.Dispatch | lib/genius/api/annotations.rb:176-200 | the argument check and the `case` over verb and action; its properties are DispatchAccepts, DispatchRequest and ActionNeedsPutFirst |
| Annotations.PostPayload | lib/genius/api/annotations.rb:218-239 | the payload before JSON encoding; its properties are PayloadShape, PayloadSections, PayloadSlots and PayloadIgnoresOtherKeys |
| Annotations.DispatchAccepts | lib/genius/api/annotations.rb:176-200 | exactly get, post and delete without an action, and put without one or with upvote, downvote or unvote, give a request; every other combination raises `ArgumentError` |
| Annotations.DispatchRequest | lib/genius/api/annotations.rb:180-197 | every accepted verb and action gives a request; it uses the verb asked for and targets `/annotations/:id`; for put it adds `/` and the action, an empty segment when there is none; the payload body is sent exactly for post and action-less put |
| Annotations.ActionNeedsPutFirst | lib/genius/api/annotations.rb:176 | an action with any verb but put raises before the verb is examined, even an unknown verb |
| Annotations.TokenErrorFirst | lib/genius/api/annotations.rb:175-176 | with an explicit token, a failing `error_handle` wins over every argument error, raising the as-written `TokenError` |
| Annotations.AnnotationsRequest | lib/genius/api/annotations.rb:173-201 | once the credentials pass, the request is the dispatch's, sent with the explicit token or else the session token |
| Annotations.PayloadShape | lib/genius/api/annotations.rb:219-237 | the payload always has exactly the sections annotation, referent and web_page, in that order |
| Annotations.PayloadSections | lib/genius/api/annotations.rb:219-237 | each section sits under its own key |
| Annotations.AnnotationSlots | lib/genius/api/annotations.rb:220-224 | `annotation.body.markdown` is the `markdown` option |
| Annotations.ReferentSlots | lib/genius/api/annotations.rb:225-232 | the referent section holds `raw_annotatable_url`, `fragment` and the context section |
| Annotations.ContextSlots | lib/genius/api/annotations.rb:228-231 | the context section holds `before_html` and `after_html` |
| Annotations.WebPageSlots | lib/genius/api/annotations.rb:233-237 | the web_page section holds `canonical_url`, `og_url` and `title` |
| Annotations.AnnotationDig | lib/genius/api/annotations.rb:220-224 | the markdown option is reached by its full path |
| Annotations.ReferentDig | lib/genius/api/annotations.rb:225-232 | the four referent options are reached by their full paths |
| Annotations.WebPageDig | lib/genius/api/annotations.rb:233-237 | the three web-page options are reached by their full paths |
| Annotations.PayloadSlots | lib/genius/api/annotations.rb:219-237 | each of the eight options lands in its own slot, and a missing option gives `nil` |
| Annotations.PayloadIgnoresOtherKeys | lib/genius/api/annotations.rb:219-237 | options agreeing on the eight payload keys give the same payload, so other keys are ignored |
| Artists.Artists | lib/genius/api/artists.rb:18-25 | a failing explicit-token validation or a non-`TokenError` failure of `authorized?` raises; otherwise a nil `id` raises `ArgumentError`, even for an unauthorized session, since the `false` of `authorized?` is discarded; the request goes to `/artists/:id` with the explicit token or else the session token |
| Artists.ArtistsIdRequired | lib/genius/api/artists.rb:19-21 | a nil `id` raises `` `id` can't be nil! `` whenever a given token passes or, without one, `authorized?` answers at all, `false` included |
| Artists.ValidateSort | lib/genius/api/artists.rb:79-83 | passes exactly for a nil or false sort or a listed String, and raises `ArgumentError` otherwise |
| Artists.ValidatePagePerPage | lib/genius/api/artists.rb:93-95 | nil and non-negative integers pass; a negative integer raises `ArgumentError`; a value without `negative?` raises `NoMethodError` |
| Artists.Validate | lib/genius/api/artists.rb:64-68 | passes exactly when all three checks pass; otherwise the first failing check in the order sort, per_page, page determines the error |
| Artists.SongsSortValues | lib/genius/api/artists.rb:47-48 | among truthy sorts, exactly `"title"` and `"popularity"` are accepted |
| Artists.SortCheckedFirst | lib/genius/api/artists.rb:64-68 | a bad sort is reported even when the pages are bad too |
| Artists.ListSongs | lib/genius/api/artists.rb:45-51 | after the guard: explicit-token validation, then option validation, whose error is the one raised, then the request with only sort, per_page and page forwarded |
| Artists.ArtistsSongsRejectsOptions | lib/genius/api/artists.rb:37-38 | with a valid token, an unlisted sort raises `ArgumentError` naming the allowed values, and a negative `per_page` or `page` raises `ArgumentError`, as written and corrected |
| Artists.ArtistsSongs | lib/genius/api/artists.rb:42-53 | `artists_songs` as written; its properties are ArtistsSongsNilTokenNeverRequests, ArtistsSongsPathLacksSongs and ArtistsSongsWithToken |
| Artists.ArtistsSongsCorrected | lib/genius/api/artists.rb:42-53 | `artists_songs` as evidently intended; its properties are ArtistsSongsCorrectedSession and ArtistsSongsWithToken |
| Artists.ArtistsSongsNilTokenNeverRequests | lib/genius/api/artists.rb:43 | as written, without a token no request is ever made, however valid the session |
| Artists.ArtistsSongsPathLacksSongs | lib/genius/api/artists.rb:51 | as written, the songs request goes to `/artists/1`, the single artist |
| Artists.ArtistsSongsCorrectedSession | lib/genius/api/artists.rb:42-53 | corrected: without a token, an authorized session sends the request to `/artists/:id/songs` with the session token, and an unauthorized one returns `nil` |
| Artists.ArtistsSongsWithToken | lib/genius/api/artists.rb:45-51 | with a token, the written and corrected versions succeed and fail together, with the same error, and the corrected URL ends in `/songs` |
| Artists.SongsParams | lib/genius/api/artists.rb:50 | the query holds exactly the option keys sort, per_page and page, in the options' order |
| Referents.Fetch | lib/genius/api/referents.rb:31-38 | after the guard: a failing `error_handle` raises the as-written `TokenError` first; once the token passes, both exclusive keys raise exactly `ArgumentError`; otherwise the request goes to `/referents` with only the allowed options |
| Referents.Referents | lib/genius/api/referents.rb:28-40 | `referents` as written; its properties are ReferentsNilTokenNeverRequests, TokenCheckedFirst, SongAndWebPageRejected and WebPageIdWithSongIdAccepted |
| Referents.ReferentsCorrected | lib/genius/api/referents.rb:28-40 | `referents` as evidently intended; its properties are CorrectedExclusion, CorrectedSession and TokenCheckedFirst |
| Referents.ReferentsNilTokenNeverRequests | lib/genius/api/referents.rb:29 | as written, without a token no request is ever made |
| Referents.TokenCheckedFirst | lib/genius/api/referents.rb:31-32 | with an explicit token, `error_handle` runs before the exclusion check, and its as-written `TokenError` is what is raised |
| Referents.SongAndWebPageRejected | lib/genius/api/referents.rb:32-34 | options with both `song_id` and `web_page` raise `ArgumentError` |
| Referents.WebPageIdWithSongIdAccepted | lib/genius/api/referents.rb:27-33 | as written, `song_id` with `web_page_id` passes; the corrected check refuses it |
| Referents.CorrectedExclusion | lib/genius/api/referents.rb:27 | corrected: the options refused are exactly those with both `song_id` and `web_page_id` |
| Referents.CorrectedSession | lib/genius/api/referents.rb:28-40 | corrected: without a token, an authorized session sends the request with the session token, and an unauthorized one returns `nil` |
| Referents.ReferentsParams | lib/genius/api/referents.rb:36 | only created_by_id, text_format, per_page and page are forwarded; `song_id` and `web_page_id` never reach the query |

Helpers that model no line of their own, each serving the lemma named:

- `Unescape.EscapeQuotes` escapes the quotes of a string. It is the encoder that `Unescape.UnescapeEscapeQuotes` shows `unescape` inverts.
- `OptionsHelper.Fields`, `OptionsHelper.Field` and `OptionsHelper.FieldStopsAtAmp` decode a query string. They serve `OptionsHelper.FieldsOfQuery`.
- `Annotations.Dig` reads a nested slot, like `Hash#dig`. It serves `Annotations.PayloadSlots`.
- `DeepFind.KeptPositions` gives the positions `uniq!` keeps. It serves `DeepFind.UniqAtKeptPositions`, `DeepFind.UniqKeepsOnlyFirsts` and `DeepFind.UniqKeepsEveryFirst`.
- `DeepFind.NestedHits`, `DeepFind.ChildHits` and `DeepFind.ElemsHits` walk the searched hashes for `DeepFind.Hits`. `DeepFind.NestedHitsMatch`, `DeepFind.ChildHitsMatch`, `DeepFind.ElemsHitsMatch` and `DeepFind.OneFound` are the matching steps of `DeepFind.HitsMatch`.

## Left out

- HTTP requests (HTTParty), `JSON.parse`, `to_json` and Nokogiri are not modelled. A request is returned as a `Request` value, not sent. The token probe's `meta.status` is the `Probe` parameter. The payload is the hash before its JSON encoding.
- A probe body that is not a JSON object (a `JSON::ParserError`, or `dig` on a non-hash) is not modelled: it is library behaviour.
- `Errors.validate_token` and `Genius::Errors::DynamicRescue` are not part of this model because no file here defines them. Validation is the `Validator` parameter. The rescue wrapper around each module is not modelled, so exceptions are returned as `Err` values unchanged.
- Auth.RefusesNil: it is assumed, not derived, that `validate_token(nil)` raises `TokenError`. The ground is spec/api/authorization_spec.rb:23-29: after `logout!` and a failed login the session token is `nil`, and `authorized?` is expected to answer `false`, which it does only on a `TokenError`. The `false` answers of `Auth.NilNotAuthorized`, `Auth.Lifecycle` (before and after) and `Auth.LogoutThenInvalidLogin` rest on it. If `validate_token(nil)` raised `TokenMissing` instead, those answers would be errors.
- Auth.EnforcesLength: it is assumed that `validate_token` refuses a token that is not 64 characters long with a `TokenError`, as `error_handle` does (errors.rb:105). `Auth.MalformedNotAuthorized`, `Auth.LogoutThenInvalidLogin` and `Annotations.AnnotationsRequest` rest on it.
- The `method_name:` argument of `authorized?` only labels the error, so it is not modelled. Its positional use as the token in `annotations` is modelled.
- The debug prints `p token` and `p 1` in `token=` are not modelled.
- `logout!` reads a `token` reader that no file here defines; it is modelled as reading `@token`.
- songs.rb, account.rb, search.rb and web_pages.rb are left out. They are page scraping with retry loops around network fetches, or thin request wrappers.
- Artists.SortMessage: an array or hash sort value is shown as `[...]` or `{...}` rather than by Ruby's `inspect`.
- Artists.ValidatePagePerPage: the `NoMethodError` for a value without `negative?` carries a fixed text, not Ruby's full message. Floats are not values of the model, so a negative Float `per_page`, which Ruby rejects with `ArgumentError`, is not covered.
- Values.Value: there are no floats, and symbols are not distinct from strings.
- Code points beyond `char` and string encodings are not modelled.
- Ruby's `/`-regex engine is not modelled in general: only the two fixed patterns of `unescape`, each with its one-character lookbehind.
- Nothing in the gem is concurrent; the session is modelled as a single object.

## Findings

| source | as written | input that shows it | evidently intended | confidence | as-written member | corrected member |
|---|---|---|---|---|---|---|
| lib/genius/api/errors.rb:53 | `super(message)` runs before any message is set, so `Exception#message` is the class name (the same at line 70 for `TokenMissing`) | `TokenError.new "Message", "Error type"`, whose documented `e.message` is `"Message"` (lines 27-31) | pass `msg` to `super` so that `message == msg` | high, not executed | Errors.TokenErrorMessageIsClassName | Errors.NewTokenError |
| lib/genius/api/artists.rb:43 | `!Auth.authorized?.nil?` is true whenever `authorized?` answers, so without a token the method always returns `nil` | `token: nil` with a valid session token | return early only when the session is not authorized | high, not executed | Artists.ArtistsSongsNilTokenNeverRequests | Artists.ArtistsSongsCorrectedSession |
| lib/genius/api/artists.rb:51 | the songs request goes to `/artists/:id`, the single-artist endpoint | `id: 1` with a valid token: the request goes to `/artists/1` | request `/artists/:id/songs` | medium, not executed | Artists.ArtistsSongsPathLacksSongs | Artists.ArtistsSongsWithToken |
| lib/genius/api/referents.rb:29 | the same `!Auth.authorized?.nil?` guard, so without a token no request is ever made | `token: nil` with a valid session token | return early only when the session is not authorized | high, not executed | Referents.ReferentsNilTokenNeverRequests | Referents.CorrectedSession |
| lib/genius/api/referents.rb:32 | the exclusion looks for `:web_page`. The documentation is split: the `@raise` line (23) names `web_page`, but `:web_page` is no documented option, while the `@option` line (19), the prose (27) and the message (33) name `web_page_id` | `options: {song_id: 1, web_page_id: 2}` with a valid token passes | refuse `song_id` together with `web_page_id` | high, not executed | Referents.WebPageIdWithSongIdAccepted | Referents.CorrectedExclusion |
