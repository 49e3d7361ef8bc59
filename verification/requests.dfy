/**
 * The HTTP request an endpoint would send, described instead of sent:
 * the verb, the URL before its query, the `access_token` query value, the
 * extra query text that follows it, and the body.
 */
module Requests {
  import opened Wrappers
  import opened Values

  /** `Genius::Api::RESOURCE` */
  const Resource: string := "https://api.genius.com"

  datatype Request = Request(verb: string, url: string, accessToken: Option<string>, params: string, body: Option<Value>)

  /** How `"#{x}"` shows an optional string: `nil` shows as nothing. */
  function Interp(x: Option<string>): (r: string)
    ensures x.None? ==> r == ""
    ensures x.Some? ==> r == x.value
  {
    match x
    case Some(s) => s
    case None => ""
  }
}
