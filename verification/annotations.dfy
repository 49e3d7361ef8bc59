/**
 * `Genius::Annotations.annotations`: the credential check, then the
 * dispatch on the HTTP verb and the vote action to one request against
 * `/annotations/:id`; and `post_payload`, the fixed-shape body of
 * annotation writes.
 */
module Annotations {
  import opened Wrappers
  import opened Values
  import opened Errors
  import opened Auth
  import opened Requests
  import opened Guards

  /** The method's full name, which `annotations` passes to `authorized?` as its positional (token) argument. */
  const MethodName: string := "Genius::Annotations.annotations"

  const VoteActions: seq<string> := ["upvote", "downvote", "unvote"]

  const ActionNeedsPut: string := "only PUT accepts `action` param"
  const InvalidAction: string := "Invalid value for `action` param. Allowed values are: upvote, downvote, unvote"
  const InvalidVerb: string := "Something bad happened..."

  function AnnotationUrl(id: string): string
  {
    Resource + "/annotations/" + id
  }

  /**
   * The checks before the request. Without a token, `authorized?` is asked
   * about the method name (its answer is discarded; only an exception
   * other than `TokenError` escapes). With a token, `error_handle` runs.
   */
  function CheckCredentials(token: Option<string>, validate: Validator, probe: Probe): (r: Result<()>)
    ensures token.Some? ==> r == ErrorHandle(token.value, probe)
    ensures token.None? ==> (r.Err? <==> Authorized(Some(MethodName), validate).Err?)
    ensures r.Err? && token.None? ==> r.error == validate(Some(MethodName)).error
  {
    match token
    case Some(t) => ErrorHandle(t, probe)
    case None => Advisory(Some(MethodName), validate)
  }

  /** The verbs and actions `annotations` turns into a request. */
  predicate Accepted(verb: string, action: Option<string>)
  {
    ((verb == "get" || verb == "post" || verb == "delete") && action.None?) ||
    (verb == "put" && (action.None? || action.value in VoteActions))
  }

  /** The `case` over the verb and the action, once the credentials pass. */
  function Dispatch(id: string, action: Option<string>, verb: string, options: seq<Entry>, accessToken: Option<string>): Result<Request>
  {
    if verb != "put" && action.Some? then Err(ArgumentError(ActionNeedsPut))
    else if verb == "get" then Ok(Request("get", AnnotationUrl(id), accessToken, "", None))
    else if verb == "post" then Ok(Request("post", AnnotationUrl(id), accessToken, "", Some(PostPayload(options))))
    else if verb == "put" then
      match action
      case None => Ok(Request("put", AnnotationUrl(id) + "/" + Interp(action), accessToken, "", Some(PostPayload(options))))
      case Some(a) =>
        if a in VoteActions then Ok(Request("put", AnnotationUrl(id) + "/" + a, accessToken, "", None))
        else Err(ArgumentError(InvalidAction))
    else if verb == "delete" then Ok(Request("delete", AnnotationUrl(id), accessToken, "", None))
    else Err(ArgumentError(InvalidVerb))
  }

  /** `annotations(id:, action:, token:, http_verb:, options:)`, with `session` the session token. */
  function Annotations(id: string, action: Option<string>, token: Option<string>, verb: string, options: seq<Entry>,
                       session: Option<string>, validate: Validator, probe: Probe): Result<Request>
  {
    match CheckCredentials(token, validate, probe)
    case Err(e) => Err(e)
    case Ok(_) => Dispatch(id, action, verb, options, TokenExt(token, session))
  }

  /** Exactly the accepted verb and action combinations yield a request; every other one raises `ArgumentError`. */
  lemma DispatchAccepts(id: string, action: Option<string>, verb: string, options: seq<Entry>, accessToken: Option<string>)
    ensures Dispatch(id, action, verb, options, accessToken).Ok? <==> Accepted(verb, action)
    ensures Dispatch(id, action, verb, options, accessToken).Err? ==>
      Dispatch(id, action, verb, options, accessToken).error.ArgumentError?
  {
  }

  /**
   * The request: the verb asked for, `/annotations/:id` (with `/` and the
   * action appended for `put`, an empty segment when there is no action),
   * a payload body exactly for `post` and an action-less `put`.
   */
  lemma DispatchRequest(id: string, action: Option<string>, verb: string, options: seq<Entry>, accessToken: Option<string>)
    requires Accepted(verb, action)
    ensures Dispatch(id, action, verb, options, accessToken).Ok?
    ensures var req := Dispatch(id, action, verb, options, accessToken).value;
      req.verb == verb && req.accessToken == accessToken && req.params == "" &&
      req.url == AnnotationUrl(id) + (if verb == "put" then "/" + Interp(action) else "") &&
      (req.body.Some? <==> verb == "post" || (verb == "put" && action.None?)) &&
      (req.body.Some? ==> req.body.value == PostPayload(options))
  {
  }

  /** An action with any verb but `put` raises before the verb is looked at. */
  lemma ActionNeedsPutFirst(id: string, a: string, verb: string, options: seq<Entry>, accessToken: Option<string>)
    requires verb != "put"
    ensures Dispatch(id, Some(a), verb, options, accessToken) == Err(ArgumentError(ActionNeedsPut))
  {
  }

  /** With an explicit token, a failing `error_handle` wins over any argument error. */
  lemma TokenErrorFirst(id: string, action: Option<string>, t: string, verb: string, options: seq<Entry>,
                        session: Option<string>, validate: Validator, probe: Probe)
    requires ErrorHandle(t, probe).Err?
    ensures Annotations(id, action, Some(t), verb, options, session, validate, probe) == Err(TokenErrorAsWritten())
  {
  }

  /**
   * With a valid explicit token, the request is the dispatch's, sent with
   * that token; with none, and a length-enforcing validator, it is sent
   * with the session token.
   */
  lemma AnnotationsRequest(id: string, action: Option<string>, token: Option<string>, verb: string, options: seq<Entry>,
                           session: Option<string>, validate: Validator, probe: Probe)
    requires token.Some? ==> ErrorHandle(token.value, probe).Ok?
    requires token.None? ==> EnforcesLength(validate)
    ensures Annotations(id, action, token, verb, options, session, validate, probe) ==
      Dispatch(id, action, verb, options, if token.Some? then token else session)
  {
    if token.None? {
      assert |MethodName| != TokenLength;
      MalformedNotAuthorized(MethodName, validate);
    }
  }

  /** `post_payload(options:)`, before its JSON encoding. */
  function PostPayload(options: seq<Entry>): Value
  {
    Hash([
      Entry("annotation", AnnotationSection(options)),
      Entry("referent", ReferentSection(options)),
      Entry("web_page", WebPageSection(options))
    ])
  }

  function AnnotationSection(options: seq<Entry>): Value
  {
    Hash([Entry("body", Hash([Entry("markdown", Get(options, "markdown"))]))])
  }

  function ReferentSection(options: seq<Entry>): Value
  {
    Hash([
      Entry("raw_annotatable_url", Get(options, "raw_annotatable_url")),
      Entry("fragment", Get(options, "fragment")),
      Entry("context_for_display", ContextSection(options))
    ])
  }

  function ContextSection(options: seq<Entry>): Value
  {
    Hash([
      Entry("before_html", Get(options, "before_html")),
      Entry("after_html", Get(options, "after_html"))
    ])
  }

  function WebPageSection(options: seq<Entry>): Value
  {
    Hash([
      Entry("canonical_url", Get(options, "canonical_url")),
      Entry("og_url", Get(options, "og_url")),
      Entry("title", Get(options, "title"))
    ])
  }

  /** The option keys `post_payload` reads. */
  const PayloadKeys: seq<string> :=
    ["markdown", "raw_annotatable_url", "fragment", "before_html", "after_html", "canonical_url", "og_url", "title"]

  /** `hash.dig(*path)` on nested hashes: `nil` once a step finds no hash. */
  function Dig(v: Value, path: seq<string>): Value
    decreases |path|
  {
    if |path| == 0 then v
    else if v.Hash? then Dig(Get(v.entries, path[0]), path[1..])
    else Nil
  }

  /** The payload always has the same three sections, in order, and nothing else at the top. */
  lemma PayloadShape(options: seq<Entry>)
    ensures Keys(PostPayload(options).entries) == ["annotation", "referent", "web_page"]
  {
    var es := PostPayload(options).entries;
    var ks := Keys(es);
    assert |ks| == 3;
    assert ks[0] == "annotation" && ks[1] == "referent" && ks[2] == "web_page";
  }

  /** The three sections sit under their own keys. */
  lemma PayloadSections(options: seq<Entry>)
    ensures Get(PostPayload(options).entries, "annotation") == AnnotationSection(options)
    ensures Get(PostPayload(options).entries, "referent") == ReferentSection(options)
    ensures Get(PostPayload(options).entries, "web_page") == WebPageSection(options)
  {
    var es := PostPayload(options).entries;
    assert DistinctKeys(es) by {
      assert es[0].key == "annotation" && es[1].key == "referent" && es[2].key == "web_page";
    }
    assert Get(es, "annotation") == AnnotationSection(options) by { LookupDistinct(es, 0); }
    assert Get(es, "referent") == ReferentSection(options) by { LookupDistinct(es, 1); }
    assert Get(es, "web_page") == WebPageSection(options) by { LookupDistinct(es, 2); }
  }

  lemma AnnotationSlots(options: seq<Entry>)
    ensures Get(AnnotationSection(options).entries, "body") == Hash([Entry("markdown", Get(options, "markdown"))])
    ensures Get(Get(AnnotationSection(options).entries, "body").entries, "markdown") == Get(options, "markdown")
  {
    var body := AnnotationSection(options).entries;
    LookupDistinct(body, 0);
    LookupDistinct(body[0].val.entries, 0);
  }

  lemma ReferentSlots(options: seq<Entry>)
    ensures Get(ReferentSection(options).entries, "raw_annotatable_url") == Get(options, "raw_annotatable_url")
    ensures Get(ReferentSection(options).entries, "fragment") == Get(options, "fragment")
    ensures Get(ReferentSection(options).entries, "context_for_display") == ContextSection(options)
  {
    var ref := ReferentSection(options).entries;
    assert DistinctKeys(ref);
    LookupDistinct(ref, 0);
    LookupDistinct(ref, 1);
    LookupDistinct(ref, 2);
  }

  lemma ContextSlots(options: seq<Entry>)
    ensures Get(ContextSection(options).entries, "before_html") == Get(options, "before_html")
    ensures Get(ContextSection(options).entries, "after_html") == Get(options, "after_html")
  {
    var ctx := ContextSection(options).entries;
    assert DistinctKeys(ctx);
    LookupDistinct(ctx, 0);
    LookupDistinct(ctx, 1);
  }

  lemma WebPageSlots(options: seq<Entry>)
    ensures Get(WebPageSection(options).entries, "canonical_url") == Get(options, "canonical_url")
    ensures Get(WebPageSection(options).entries, "og_url") == Get(options, "og_url")
    ensures Get(WebPageSection(options).entries, "title") == Get(options, "title")
  {
    var web := WebPageSection(options).entries;
    assert DistinctKeys(web);
    LookupDistinct(web, 0);
    LookupDistinct(web, 1);
    LookupDistinct(web, 2);
  }

  lemma AnnotationDig(options: seq<Entry>)
    ensures Dig(PostPayload(options), ["annotation", "body", "markdown"]) == Get(options, "markdown")
  {
    PayloadSections(options);
    AnnotationSlots(options);
    assert ["annotation", "body", "markdown"][1..] == ["body", "markdown"];
    assert ["body", "markdown"][1..] == ["markdown"];
    assert ["markdown"][1..] == [];
  }

  lemma ReferentDig(options: seq<Entry>)
    ensures Dig(PostPayload(options), ["referent", "raw_annotatable_url"]) == Get(options, "raw_annotatable_url")
    ensures Dig(PostPayload(options), ["referent", "fragment"]) == Get(options, "fragment")
    ensures Dig(PostPayload(options), ["referent", "context_for_display", "before_html"]) == Get(options, "before_html")
    ensures Dig(PostPayload(options), ["referent", "context_for_display", "after_html"]) == Get(options, "after_html")
  {
    var p := PostPayload(options);
    PayloadSections(options);
    ReferentSlots(options);
    ContextSlots(options);
    var ref := ReferentSection(options);
    var ctx := ContextSection(options);
    assert Dig(p, ["referent", "raw_annotatable_url"]) == Get(options, "raw_annotatable_url") by {
      assert ["referent", "raw_annotatable_url"][1..] == ["raw_annotatable_url"];
      assert Dig(ref, ["raw_annotatable_url"]) == Get(ref.entries, "raw_annotatable_url");
    }
    assert Dig(p, ["referent", "fragment"]) == Get(options, "fragment") by {
      assert ["referent", "fragment"][1..] == ["fragment"];
      assert Dig(ref, ["fragment"]) == Get(ref.entries, "fragment");
    }
    assert Dig(p, ["referent", "context_for_display", "before_html"]) == Get(options, "before_html") by {
      assert ["referent", "context_for_display", "before_html"][1..] == ["context_for_display", "before_html"];
      assert ["context_for_display", "before_html"][1..] == ["before_html"];
      assert Dig(ctx, ["before_html"]) == Get(ctx.entries, "before_html");
    }
    assert Dig(p, ["referent", "context_for_display", "after_html"]) == Get(options, "after_html") by {
      assert ["referent", "context_for_display", "after_html"][1..] == ["context_for_display", "after_html"];
      assert ["context_for_display", "after_html"][1..] == ["after_html"];
      assert Dig(ctx, ["after_html"]) == Get(ctx.entries, "after_html");
    }
  }

  lemma WebPageDig(options: seq<Entry>)
    ensures Dig(PostPayload(options), ["web_page", "canonical_url"]) == Get(options, "canonical_url")
    ensures Dig(PostPayload(options), ["web_page", "og_url"]) == Get(options, "og_url")
    ensures Dig(PostPayload(options), ["web_page", "title"]) == Get(options, "title")
  {
    var p := PostPayload(options);
    PayloadSections(options);
    WebPageSlots(options);
    var web := WebPageSection(options);
    assert Dig(p, ["web_page", "canonical_url"]) == Get(options, "canonical_url") by {
      assert ["web_page", "canonical_url"][1..] == ["canonical_url"];
      assert Dig(web, ["canonical_url"]) == Get(web.entries, "canonical_url");
    }
    assert Dig(p, ["web_page", "og_url"]) == Get(options, "og_url") by {
      assert ["web_page", "og_url"][1..] == ["og_url"];
      assert Dig(web, ["og_url"]) == Get(web.entries, "og_url");
    }
    assert Dig(p, ["web_page", "title"]) == Get(options, "title") by {
      assert ["web_page", "title"][1..] == ["title"];
      assert Dig(web, ["title"]) == Get(web.entries, "title");
    }
  }

  /** The payload has three sections, each option key lands in its own slot, and a missing key leaves `nil` there. */
  lemma PayloadSlots(options: seq<Entry>)
    ensures Dig(PostPayload(options), ["annotation", "body", "markdown"]) == Get(options, "markdown")
    ensures Dig(PostPayload(options), ["referent", "raw_annotatable_url"]) == Get(options, "raw_annotatable_url")
    ensures Dig(PostPayload(options), ["referent", "fragment"]) == Get(options, "fragment")
    ensures Dig(PostPayload(options), ["referent", "context_for_display", "before_html"]) == Get(options, "before_html")
    ensures Dig(PostPayload(options), ["referent", "context_for_display", "after_html"]) == Get(options, "after_html")
    ensures Dig(PostPayload(options), ["web_page", "canonical_url"]) == Get(options, "canonical_url")
    ensures Dig(PostPayload(options), ["web_page", "og_url"]) == Get(options, "og_url")
    ensures Dig(PostPayload(options), ["web_page", "title"]) == Get(options, "title")
  {
    AnnotationDig(options);
    ReferentDig(options);
    WebPageDig(options);
  }

  /** Keys other than the eight slots are ignored: options that agree on those give the same payload. */
  lemma PayloadIgnoresOtherKeys(o1: seq<Entry>, o2: seq<Entry>)
    requires forall i :: 0 <= i < |PayloadKeys| ==> Get(o1, PayloadKeys[i]) == Get(o2, PayloadKeys[i])
    ensures PostPayload(o1) == PostPayload(o2)
  {
    assert Get(o1, PayloadKeys[0]) == Get(o2, PayloadKeys[0]);
    assert Get(o1, PayloadKeys[1]) == Get(o2, PayloadKeys[1]);
    assert Get(o1, PayloadKeys[2]) == Get(o2, PayloadKeys[2]);
    assert Get(o1, PayloadKeys[3]) == Get(o2, PayloadKeys[3]);
    assert Get(o1, PayloadKeys[4]) == Get(o2, PayloadKeys[4]);
    assert Get(o1, PayloadKeys[5]) == Get(o2, PayloadKeys[5]);
    assert Get(o1, PayloadKeys[6]) == Get(o2, PayloadKeys[6]);
    assert Get(o1, PayloadKeys[7]) == Get(o2, PayloadKeys[7]);
  }
}
