/**
 * The JSON request helper: the URL it calls, the request it sends, and the
 * ordered chain of checks that turns a response into a value or an error.
 * `fetch` is replaced by its response, given as an input record.
 */
module Http {
  import opened Wrappers
  import opened Text
  import opened Json
  import opened Errors

  /** `${API_BASE}${path}`, with a "/" put in front of the path only when it has none. */
  function BuildUrl(apiBase: string, path: string): (r: string)
    ensures |r| == |apiBase| + |path| + (if StartsWith(path, "/") then 0 else 1)
    ensures StartsWith(r, apiBase) && StartsWith(r[|apiBase|..], "/")
    ensures r[|r| - |path|..] == path
  {
    var trimmed := if StartsWith(path, "/") then path else "/" + path;
    assert trimmed[|trimmed| - |path|..] == path;
    apiBase + trimmed
  }

  /** A path with and without its leading "/" give the same URL. */
  lemma BuildUrlLeadingSlash(apiBase: string, path: string)
    ensures BuildUrl(apiBase, path) == BuildUrl(apiBase, "/" + path) <==> !StartsWith(path, "/")
  {
    var u := BuildUrl(apiBase, "/" + path);
    assert StartsWith("/" + path, "/");
    if StartsWith(path, "/") {
      assert |BuildUrl(apiBase, path)| < |u|;
    }
  }

  /**
   * parseError: the parsed body when it has a truthy `error` member, else
   * nothing; a body that is not JSON gives nothing instead of throwing.
   */
  function ParseError(body: string, host: Host): (r: Option<Json>)
    ensures r.Some? <==>
      host.parse(body).Some? && Get(host.parse(body).value, "error").Some?
      && Truthy(Get(host.parse(body).value, "error").value)
    ensures r.Some? ==> r == host.parse(body) && Carries(r) && EnvelopeReadable(r)
  {
    match host.parse(body)
    case None => None
    case Some(data) =>
      match Get(data, "error")
      case Some(e) => if Truthy(e) then Some(data) else None
      case None => None
  }

  datatype HttpMethod = GET | POST | PUT | PATCH | DELETE

  /** The request body: none, a FormData, or a value sent as `JSON.stringify(value)`. */
  datatype Body = NoBody | FormData | JsonValue(value: Json)

  /** RequestOptions without the abort signal (`verb` is its `method`); a schema is its `safeParse`, None on failure. */
  datatype RequestOptions = RequestOptions(
    path: string,
    verb: Option<HttpMethod>,
    token: Option<string>,
    body: Body,
    schema: Option<Json -> Option<Json>>,
    headers: Option<map<string, string>>)

  /** The method, headers and body passed to `fetch`. */
  datatype RequestInit = RequestInit(verb: HttpMethod, headers: map<string, string>, body: Body)

  const JsonHeaders: map<string, string> := map["Content-Type" := "application/json", "Accept" := "application/json"]

  predicate TruthyToken(token: Option<string>) {
    token.Some? && token.value != ""
  }

  /**
   * The request: the JSON headers, overridden by the caller's, overridden by
   * `Authorization` for a truthy token; a FormData body drops `Content-Type`.
   */
  function BuildInit(opts: RequestOptions): (init: RequestInit)
    ensures init.verb == opts.verb.GetOr(GET) && init.body == opts.body
    ensures TruthyToken(opts.token) ==> "Authorization" in init.headers && init.headers["Authorization"] == "Bearer " + opts.token.value
    ensures opts.body.FormData? ==> "Content-Type" !in init.headers
    ensures !opts.body.FormData? ==> "Content-Type" in init.headers
    ensures "Accept" in init.headers
    ensures !opts.body.FormData? && (opts.headers.None? || "Content-Type" !in opts.headers.value) ==>
      init.headers["Content-Type"] == "application/json"
    ensures opts.headers.None? || "Accept" !in opts.headers.value ==> init.headers["Accept"] == "application/json"
    ensures forall k :: k in init.headers ==>
      k in JsonHeaders || (opts.headers.Some? && k in opts.headers.value) || (k == "Authorization" && TruthyToken(opts.token))
    ensures opts.headers.Some? ==> forall k :: k in opts.headers.value ==>
      (k == "Authorization" && TruthyToken(opts.token)) || (k == "Content-Type" && opts.body.FormData?)
      || (k in init.headers && init.headers[k] == opts.headers.value[k])
  {
    var caller := opts.headers.GetOr(map[]);
    var auth := if TruthyToken(opts.token) then map["Authorization" := "Bearer " + opts.token.value] else map[];
    var headers := JsonHeaders + caller + auth;
    var headers := if opts.body.FormData? then headers - {"Content-Type"} else headers;
    RequestInit(opts.verb.GetOr(GET), headers, opts.body)
  }

  /** What `fetch` resolved to; header names are given in lower case, as `Headers.get` matches them. */
  datatype Response = Response(status: int, headers: map<string, string>, body: string)

  predicate Ok(status: int) {
    200 <= status <= 299
  }

  /** `res.headers.get(name)`. */
  function Header(res: Response, name: string): Option<string> {
    if name in res.headers then Some(res.headers[name]) else None
  }

  /** The promise `request` settles with: a value (None is undefined) or a thrown error. */
  datatype Outcome = Returned(value: Option<Json>) | Threw(err: Thrown)

  /** The message of the error for a failed status: the envelope's `error.message`, else the status text. */
  function FailureMessage(envelope: Option<Json>, status: int, host: Host): (message: string)
    requires EnvelopeReadable(envelope)
    ensures
      && Carries(envelope) && envelope.value.JObject? && envelope.value.fields["error"].JObject?
      && "message" in envelope.value.fields["error"].fields
      && envelope.value.fields["error"].fields["message"].JString?
      ==> message == envelope.value.fields["error"].fields["message"].s
    ensures
      && Carries(envelope) && envelope.value.JObject? && envelope.value.fields["error"].JObject?
      && "message" in envelope.value.fields["error"].fields
      && !envelope.value.fields["error"].fields["message"].JNull?
      ==> message == ToJsString(envelope.value.fields["error"].fields["message"], host)
    ensures
      || !Carries(envelope)
      || !(envelope.value.JObject? && envelope.value.fields["error"].JObject? && "message" in envelope.value.fields["error"].fields)
      || envelope.value.fields["error"].fields["message"].JNull?
      ==> message == "Request failed with status " + IntToString(status)
  {
    var message := if Carries(envelope) then Get(Get(envelope.value, "error").value, "message") else None;
    match message
    case Some(m) => if m.JNull? then "Request failed with status " + IntToString(status) else ToJsString(m, host)
    case None => "Request failed with status " + IntToString(status)
  }

  /** `o` threw an `ApiError` (not an AuthError) with this message and status and no envelope. */
  predicate ThrewPlainApiError(o: Outcome, message: string, status: int) {
    && o.Threw? && o.err.Api?
    && o.err.err.name == "ApiError" && o.err.err.message == message && o.err.err.status == status
    && o.err.err.causeEnvelope.None?
  }

  /** The response has no content: status 204 or a `Content-Length` of "0". */
  predicate NoContent(res: Response) {
    res.status == 204 || Header(res, "content-length") == Some("0")
  }

  predicate JsonContentType(res: Response) {
    Contains(Header(res, "content-type").GetOr(""), "application/json")
  }

  /** request: the URL and init it sends, and the ordered checks applied to the response. */
  method Request(apiBase: string, opts: RequestOptions, res: Response, host: Host)
    returns (url: string, init: RequestInit, outcome: Outcome)
    ensures url == BuildUrl(apiBase, opts.path) && init == BuildInit(opts)
    ensures res.status == 401 ==>
      && outcome.Threw? && outcome.err.Api? && outcome.err.err.IsAuth()
      && outcome.err.err.status == 401 && outcome.err.err.message == "Authentication required"
    ensures res.status != 401 && !Ok(res.status) ==>
      var envelope := ParseError(res.body, host);
      && outcome.Threw? && outcome.err.Api? && !outcome.err.err.IsAuth()
      && outcome.err.err.status == res.status
      && outcome.err.err.message == FailureMessage(envelope, res.status, host)
      && outcome.err.err.causeEnvelope == envelope
    ensures Ok(res.status) && NoContent(res) ==> outcome == Returned(None)
    ensures Ok(res.status) && !NoContent(res) && !JsonContentType(res) ==>
      ThrewPlainApiError(outcome, "Unexpected response content type", res.status)
    ensures Ok(res.status) && !NoContent(res) && JsonContentType(res) && host.parse(res.body).None? ==>
      outcome == Threw(Syntax)
    ensures Ok(res.status) && !NoContent(res) && JsonContentType(res) && host.parse(res.body).Some? ==>
      var json := host.parse(res.body).value;
      match opts.schema
      case None => outcome == Returned(Some(json))
      case Some(schema) =>
        if schema(json).Some? then outcome == Returned(schema(json))
        else ThrewPlainApiError(outcome, "Response validation failed", res.status)
  {
    url := BuildUrl(apiBase, opts.path);
    init := BuildInit(opts);

    if res.status == 401 {
      var e := new ApiError.Auth(None, None);
      return url, init, Threw(Api(e));
    }

    if !Ok(res.status) {
      var envelope := ParseError(res.body, host);
      var e := new ApiError(FailureMessage(envelope, res.status, host), Some(res.status), envelope);
      return url, init, Threw(Api(e));
    }

    if NoContent(res) {
      return url, init, Returned(None);
    }

    var contentType := Header(res, "content-type").GetOr("");
    if !Contains(contentType, "application/json") {
      var e := new ApiError("Unexpected response content type", Some(res.status), None);
      return url, init, Threw(Api(e));
    }

    var json := host.parse(res.body);
    if json.None? {
      return url, init, Threw(Syntax);
    }

    if opts.schema.None? {
      return url, init, Returned(json);
    }

    var parsed := opts.schema.value(json.value);
    if parsed.None? {
      var e := new ApiError("Response validation failed", Some(res.status), None);
      return url, init, Threw(Api(e));
    }
    outcome := Returned(parsed);
  }
}
