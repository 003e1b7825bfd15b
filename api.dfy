/**
 * The browser's API client (`analyzeContent`): builds the POST request for
 * `/analyze` and turns what the HTTP client observes into the outcome the
 * pages see. The network itself is not modelled: a reply is an input.
 */
module Api {
  import opened Wrappers
  import opened Protocol

  /** The server address used when no environment value is configured. */
  const DefaultApiBase: string := "http://127.0.0.1:5000"

  /** Path of the analysis endpoint, appended to the base address. */
  const AnalyzePath: string := "/analyze"

  /** Request timeout in milliseconds. */
  const TimeoutMs: nat := 60000

  /** What the pages observe once the awaited call settles. */
  datatype ResponseData = ResponseData(result: AnalysisResult, corroboration: Option<seq<Corroboration>>)

  datatype CallOutcome =
    | Success(data: ResponseData)
      /** `errorField` is the `error` field of the reply body, if a reply with one arrived. */
    | Failure(errorField: Option<string>)

  /** A POST request as handed to the HTTP client. */
  datatype HttpRequest = HttpRequest(url: string, body: JsonObject, headers: map<string, string>, timeoutMs: nat)

  /**
   * `API_BASE`: the configured environment value, unless it is unset or the
   * empty string, in which case the loopback default.
   */
  function ApiBase(env: Option<string>): (base: string)
    ensures base != ""
    ensures env.Some? && env.value != "" ==> base == env.value
    ensures env == None || env == Some("") ==> base == DefaultApiBase
  {
    if env.Some? && env.value != "" then env.value else DefaultApiBase
  }

  /**
   * The endpoint address: `base` with one trailing slash removed, if it has
   * one, followed by the endpoint path.
   */
  function Endpoint(base: string): (url: string)
    ensures |url| >= |AnalyzePath| && url[|url| - |AnalyzePath|..] == AnalyzePath
    ensures var prefix := url[..|url| - |AnalyzePath|];
            if base != [] && base[|base| - 1] == '/' then base == prefix + "/" else base == prefix
  {
    var stripped := if base != [] && base[|base| - 1] == '/' then base[..|base| - 1] else base;
    stripped + AnalyzePath
  }

  /** A base with a trailing slash reaches the same endpoint as the base without it. */
  lemma EndpointIgnoresOneTrailingSlash(base: string)
    requires base == [] || base[|base| - 1] != '/'
    ensures Endpoint(base + "/") == Endpoint(base)
  {
    assert (base + "/")[..|base|] == base;
  }

  /** Only one slash is removed: a doubled trailing slash leaves one in the address. */
  lemma EndpointKeepsSecondSlash(base: string)
    ensures Endpoint(base + "//") == base + "/" + AnalyzePath
  {
    assert (base + "//")[..|base| + 1] == base + "/";
  }

  /** The request body: tagged with its mode and carrying one content field. */
  function Payload(mode: string, value: string): JsonObject
  {
    if mode == "url" then map["mode" := JStr("url"), "url" := JStr(value)]
    else map["mode" := JStr("text"), "text" := JStr(value)]
  }

  /**
   * Mode "url" sends `{mode: "url", url: value}`; every other mode sends
   * `{mode: "text", text: value}`: never both content fields, never neither,
   * and the value exactly as given.
   */
  lemma PayloadShape(mode: string, value: string)
    ensures var body := Payload(mode, value);
            && "mode" in body && body["mode"] == JStr(if mode == "url" then "url" else "text")
            && body.Keys == {"mode", if mode == "url" then "url" else "text"}
            && ("url" in body <==> "text" !in body)
            && (forall key :: key in body && key != "mode" ==> body[key] == JStr(value))
  {
  }

  /** The POST request `analyzeContent(mode, value)` issues against `base`. */
  function AnalyzeRequest(base: string, mode: string, value: string): HttpRequest
  {
    HttpRequest(Endpoint(base), Payload(mode, value), map["Content-Type" := "application/json"], TimeoutMs)
  }

  /**
   * The request goes to the endpoint, carries the payload, is sent as JSON
   * and gives up after 60 seconds.
   */
  lemma AnalyzeRequestShape(base: string, mode: string, value: string)
    ensures var request := AnalyzeRequest(base, mode, value);
            && request.url == Endpoint(base)
            && request.body == Payload(mode, value)
            && request.headers == map["Content-Type" := "application/json"]
            && request.timeoutMs == 60000
  {
  }

  /**
   * The HTTP client's verdict on what came back: no reply (a transport
   * failure or the timeout) rejects without an error field; a 2xx reply
   * resolves with its body unchanged, so a present corroboration list is
   * passed on as is; any other reply rejects and exposes the body's `error`.
   */
  function Deliver(reply: Option<Reply>): (outcome: CallOutcome)
    requires reply.Some? ==> WellFormed(reply.value)
    ensures reply.None? ==> outcome == Failure(None)
    ensures outcome.Success? <==> reply.Some? && IsSuccessStatus(reply.value.status)
    ensures outcome.Success? ==> outcome.data.result == reply.value.body.result &&
                                 outcome.data.corroboration == Some(reply.value.body.corroboration)
    ensures reply.Some? && !IsSuccessStatus(reply.value.status) ==>
              outcome == Failure(Some(reply.value.body.error))
  {
    match reply
    case None => Failure(None)
    case Some(Reply(_, ResultBody(result, corroboration))) => Success(ResponseData(result, Some(corroboration)))
    case Some(Reply(_, ErrorBody(error))) => Failure(Some(error))
  }
}
