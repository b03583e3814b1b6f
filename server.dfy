/** The decisions the backend makes for each request: the `/api/books`
    handler (validation, outbound parameters, error mapping) and the CORS
    origin check (backend/server.js). The outbound call itself is a
    parameter: `upstream` gives the catalog's answer for a parameter set. */
module Server {
  import opened Js

  /** The query string of the outbound GET, as a property map. */
  type Params = map<string, string>

  /** `error.response.data.error` of a failed outbound call. */
  datatype ErrorDetail = ErrorDetail(message: Option<string>)
  /** `error.response.data`. */
  datatype ErrorData = ErrorData(error: Option<ErrorDetail>)
  /** `error.response`: the upstream HTTP reply, when there was one. */
  datatype UpstreamResponse = UpstreamResponse(status: Option<int>, data: Option<ErrorData>)
  /** The error the outbound call throws. */
  datatype UpstreamError = UpstreamError(response: Option<UpstreamResponse>, message: Option<string>)

  /** The outcome of the outbound call: the response data, or the thrown error. */
  datatype Upstream<D> = Fetched(data: D) | Failed(error: UpstreamError)

  datatype Body<D> = Passthrough(data: D) | ErrorJson(error: string)
  datatype Reply<D> = Reply(status: int, body: Body<D>)

  /** One request: the outbound parameters, if a call was made, and the reply. */
  datatype Exchange<D> = Exchange(call: Option<Params>, reply: Reply<D>)

  const MissingQueryText := "Missing required query parameter 'q'."
  const FallbackErrorText := "Failed to fetch books"
  const AllowedOrigins: seq<string> := ["http://127.0.0.1:5500", "http://localhost:5500"]

  /** `(req.query.q || '').trim()`, and `None` for the blank query that the
      handler rejects. */
  function ValidQuery(q: Option<string>): (r: Option<string>)
    ensures r.None? <==> q.None? || AllSpace(q.value)
    ensures r.Some? ==> r.value == Trim(q.value) && r.value != ""
    ensures r.Some? ==> !IsJsSpace(r.value[0]) && !IsJsSpace(r.value[|r.value| - 1])
  {
    var query := Trim(OrElse(q, ""));
    if query == "" then None else Some(query)
  }

  /** `{ q: query }`, with `key` set only when the API key is truthy. */
  function BuildParams(query: string, apiKey: Option<string>): (p: Params)
    ensures "q" in p && p["q"] == query
    ensures "key" in p <==> Truthy(apiKey)
    ensures "key" in p ==> p["key"] == apiKey.value
    ensures p.Keys <= {"q", "key"}
  {
    if Truthy(apiKey) then map["q" := query, "key" := apiKey.value] else map["q" := query]
  }

  /** `error?.response?.status || 500`: a status of 0 is falsy too. */
  function ErrorStatus(e: UpstreamError): (s: int)
    ensures s != 0
    ensures s == 500 || (e.response.Some? && e.response.value.status == Some(s))
    ensures e.response.Some? && e.response.value.status.Some? && e.response.value.status.value != 0
      ==> s == e.response.value.status.value
  {
    if e.response.Some? && e.response.value.status.Some? && e.response.value.status.value != 0
    then e.response.value.status.value
    else 500
  }

  /** `error?.response?.data?.error?.message`. */
  function DetailMessage(e: UpstreamError): (m: Option<string>)
    ensures m.Some? ==>
      && e.response.Some? && e.response.value.data.Some?
      && e.response.value.data.value.error.Some?
      && m == e.response.value.data.value.error.value.message
    ensures e.response.Some? && e.response.value.data.Some? && e.response.value.data.value.error.Some?
      ==> m == e.response.value.data.value.error.value.message
  {
    if e.response.Some? && e.response.value.data.Some? && e.response.value.data.value.error.Some?
    then e.response.value.data.value.error.value.message
    else None
  }

  /** The first truthy of the catalog's own message, the transport error's
      message and the fixed fallback. */
  function ErrorMessage(e: UpstreamError): (m: string)
    ensures m != ""
    ensures Truthy(DetailMessage(e)) ==> m == DetailMessage(e).value
    ensures !Truthy(DetailMessage(e)) && Truthy(e.message) ==> m == e.message.value
    ensures !Truthy(DetailMessage(e)) && !Truthy(e.message) ==> m == FallbackErrorText
  {
    OrElse(DetailMessage(e), OrElse(e.message, FallbackErrorText))
  }

  /** The `/api/books` handler. */
  function HandleBooks<D>(q: Option<string>, apiKey: Option<string>, upstream: Params -> Upstream<D>): (x: Exchange<D>)
    ensures x.call.None? <==> ValidQuery(q).None?
    ensures x.call.None? ==> x.reply == Reply(400, ErrorJson(MissingQueryText))
    ensures x.call.Some? ==> x.call.value == BuildParams(ValidQuery(q).value, apiKey)
    ensures x.call.Some? && upstream(x.call.value).Fetched?
      ==> x.reply == Reply(200, Passthrough(upstream(x.call.value).data))
    ensures x.call.Some? && upstream(x.call.value).Failed?
      ==> x.reply == Reply(ErrorStatus(upstream(x.call.value).error), ErrorJson(ErrorMessage(upstream(x.call.value).error)))
    ensures x.reply.body.Passthrough? ==> x.reply.status == 200 && x.call.Some?
    ensures x.reply.body.ErrorJson? ==> x.reply.status != 0 && x.reply.body.error != ""
  {
    match ValidQuery(q)
    case None => Exchange(None, Reply(400, ErrorJson(MissingQueryText)))
    case Some(query) =>
      var params := BuildParams(query, apiKey);
      var reply := match upstream(params)
        case Fetched(data) => Reply(200, Passthrough(data))
        case Failed(error) => Reply(ErrorStatus(error), ErrorJson(ErrorMessage(error)));
      Exchange(Some(params), reply)
  }

  /** The `origin` callback of the CORS options: a missing (or empty) Origin
      is allowed; any other must equal one of the two development origins,
      as an exact, case-sensitive string match. */
  function OriginAllowed(origin: Option<string>): (allowed: bool)
    ensures allowed <==>
      origin.None? || origin == Some("") || origin == Some("http://127.0.0.1:5500")
      || origin == Some("http://localhost:5500")
  {
    !Truthy(origin) || origin.value in AllowedOrigins
  }
}
