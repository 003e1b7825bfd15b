/**
 * The server's `/analyze` endpoint: it reads the JSON request, picks the
 * text to classify and the search query by mode, and answers 400 for a
 * request it cannot serve, 500 when a collaborator raises, and 200 with the
 * result and the corroborating sources otherwise.
 *
 * The collaborators (article extraction, the classifier, the web search)
 * are parameters. Extraction catches its own failures and answers with a
 * possibly empty text, so it is a plain function; the other two may raise,
 * which `Call` records.
 */
module Routes {
  import opened Wrappers
  import opened Protocol
  import Strings

  const Ok: int := 200
  const BadRequest: int := 400
  const InternalError: int := 500

  const NoUrlError: string := "No URL provided"
  const ExtractionError: string :=
    "Could not extract text" + " from URL. The website may be blocking access or the URL may be invalid."
  const NoTextError: string := "No text provided for analysis"
  const AnalysisFailedPrefix: string := "Analysis failed: "

  /** How many characters of a submitted text are used as the search query. */
  const QueryLimit: nat := 160

  /** What a collaborator that may raise did: returned a value or raised with a message. */
  datatype Call<T> = Returned(value: T) | Raised(message: string)

  /** `data.get(key)`, kept only when it is a string: absent fields and nulls are `None`. */
  function Get(data: JsonObject, key: string): (v: Option<string>)
    ensures v.Some? <==> key in data && data[key].JStr?
    ensures v.Some? ==> data[key] == JStr(v.value)
  {
    if key in data && data[key].JStr? then Some(data[key].s) else None
  }

  /** Python truthiness of an optional string: present and non-empty. */
  predicate Truthy(v: Option<string>) {
    v.Some? && v.value != ""
  }

  /**
   * `data.get("mode", "url") == "url"`: the default applies only when the
   * field is absent, so a null mode, like any mode but "url", selects text.
   */
  predicate UrlMode(data: JsonObject) {
    "mode" !in data || data["mode"] == JStr("url")
  }

  /** Python's `s[:n]`: the first `n` characters, or all of a shorter `s`. */
  function Prefix(s: string, n: nat): (p: string)
    ensures |p| == if |s| < n then |s| else n
    ensures p == s[..|p|]
  {
    if |s| < n then s else s[..n]
  }

  /** The request as the endpoint reads it: a 400 error, or the text to classify and the query. */
  datatype Plan = Reject(error: string) | Proceed(articleText: string, query: string)

  /**
   * The mode dispatch. In url mode the url must be a non-empty string and
   * its extracted text non-empty; the url itself is the query. In text mode
   * a non-empty text is classified and its first 160 characters are the
   * query.
   */
  function Prepare(data: JsonObject, extract: string -> string): (plan: Plan)
    ensures plan.Proceed? ==> plan.articleText != ""
    ensures plan.Proceed? && UrlMode(data) ==>
              Get(data, "url") == Some(plan.query) && plan.articleText == extract(plan.query)
    ensures plan.Proceed? && !UrlMode(data) ==>
              Get(data, "text") == Some(plan.articleText) &&
              plan.query == Prefix(plan.articleText, QueryLimit) &&
              |plan.query| <= QueryLimit && Strings.StartsWith(plan.articleText, plan.query)
    ensures plan.Reject? ==>
              plan.error == (if !UrlMode(data) then NoTextError
                             else if Truthy(Get(data, "url")) then ExtractionError
                             else NoUrlError)
  {
    if UrlMode(data) then
      var url := Get(data, "url");
      if !Truthy(url) then
        Reject(NoUrlError)
      else
        var articleText := extract(url.value);
        if articleText == "" then Reject(ExtractionError) else Proceed(articleText, url.value)
    else
      var text := Get(data, "text");
      var articleText := if Truthy(text) then text.value else "";
      if articleText == "" then Reject(NoTextError) else Proceed(articleText, Prefix(articleText, QueryLimit))
  }

  /** The url-mode rejections, each exactly when its cause is present. */
  lemma UrlModeRejections(data: JsonObject, extract: string -> string)
    requires UrlMode(data)
    ensures Prepare(data, extract) == Reject(NoUrlError) <==> !Truthy(Get(data, "url"))
    ensures Prepare(data, extract) == Reject(ExtractionError) <==>
              Truthy(Get(data, "url")) && extract(Get(data, "url").value) == ""
  {
  }

  /** The text-mode rejection, exactly when no non-empty text string was sent. */
  lemma TextModeRejection(data: JsonObject, extract: string -> string)
    requires !UrlMode(data)
    ensures Prepare(data, extract) == Reject(NoTextError) <==> !Truthy(Get(data, "text"))
  {
  }

  /**
   * The endpoint. A rejected request gets 400 and its error; otherwise the
   * classifier runs on the text, then the search on the query, and the first
   * of them to raise turns the reply into a 500 whose error is the prefix
   * followed by the exception's message.
   */
  function Analyze(
    data: JsonObject,
    extract: string -> string,
    predict: string -> Call<AnalysisResult>,
    corroborate: string -> Call<seq<Corroboration>>
  ): (reply: Reply)
    ensures WellFormed(reply)
    ensures reply.status == Ok || reply.status == BadRequest || reply.status == InternalError
    ensures reply.status == BadRequest <==> Prepare(data, extract).Reject?
    ensures reply.status == BadRequest ==> reply.body == ErrorBody(Prepare(data, extract).error)
    ensures reply.status == Ok ==>
              var plan := Prepare(data, extract);
              plan.Proceed? &&
              predict(plan.articleText) == Returned(reply.body.result) &&
              corroborate(plan.query) == Returned(reply.body.corroboration)
    ensures reply.status == InternalError ==>
              var plan := Prepare(data, extract);
              plan.Proceed? &&
              (if predict(plan.articleText).Raised?
               then reply.body == ErrorBody(AnalysisFailedPrefix + predict(plan.articleText).message)
               else corroborate(plan.query).Raised? &&
                    reply.body == ErrorBody(AnalysisFailedPrefix + corroborate(plan.query).message))
  {
    match Prepare(data, extract)
    case Reject(error) => Reply(BadRequest, ErrorBody(error))
    case Proceed(articleText, query) =>
      match predict(articleText)
      case Raised(message) => Reply(InternalError, ErrorBody(AnalysisFailedPrefix + message))
      case Returned(result) =>
        match corroborate(query)
        case Raised(message) => Reply(InternalError, ErrorBody(AnalysisFailedPrefix + message))
        case Returned(corroboration) => Reply(Ok, ResultBody(result, corroboration))
  }

  /** A request without a mode is served exactly as one whose mode is "url". */
  lemma MissingModeMeansUrl(
    data: JsonObject,
    extract: string -> string,
    predict: string -> Call<AnalysisResult>,
    corroborate: string -> Call<seq<Corroboration>>
  )
    requires "mode" !in data
    ensures Analyze(data, extract, predict, corroborate) ==
            Analyze(data["mode" := JStr("url")], extract, predict, corroborate)
  {
    assert Get(data["mode" := JStr("url")], "url") == Get(data, "url");
  }

  /** A null mode is not defaulted: the request is served as a text request. */
  lemma NullModeMeansText(
    data: JsonObject,
    extract: string -> string,
    predict: string -> Call<AnalysisResult>,
    corroborate: string -> Call<seq<Corroboration>>
  )
    requires "mode" in data && data["mode"] == JNull
    ensures Analyze(data, extract, predict, corroborate) ==
            Analyze(data["mode" := JStr("text")], extract, predict, corroborate)
  {
    assert Get(data["mode" := JStr("text")], "text") == Get(data, "text");
  }

  /** A text request's reply does not depend on any url field it carries. */
  lemma TextModeIgnoresUrl(
    data: JsonObject,
    extract: string -> string,
    predict: string -> Call<AnalysisResult>,
    corroborate: string -> Call<seq<Corroboration>>
  )
    requires !UrlMode(data)
    ensures Analyze(data, extract, predict, corroborate) ==
            Analyze(data - {"url"}, extract, predict, corroborate)
  {
    assert Get(data - {"url"}, "text") == Get(data, "text");
  }

  /** A url request's reply does not depend on any text field it carries. */
  lemma UrlModeIgnoresText(
    data: JsonObject,
    extract: string -> string,
    predict: string -> Call<AnalysisResult>,
    corroborate: string -> Call<seq<Corroboration>>
  )
    requires UrlMode(data)
    ensures Analyze(data, extract, predict, corroborate) ==
            Analyze(data - {"text"}, extract, predict, corroborate)
  {
    assert Get(data - {"text"}, "url") == Get(data, "url");
  }

  /** Every 500 reply carries an error that begins with the prefix. */
  lemma InternalErrorsArePrefixed(
    data: JsonObject,
    extract: string -> string,
    predict: string -> Call<AnalysisResult>,
    corroborate: string -> Call<seq<Corroboration>>
  )
    ensures var reply := Analyze(data, extract, predict, corroborate);
            reply.status == InternalError ==>
              reply.body.ErrorBody? && Strings.StartsWith(reply.body.error, AnalysisFailedPrefix)
  {
    var reply := Analyze(data, extract, predict, corroborate);
    if reply.status == InternalError {
      var message := reply.body.error[|AnalysisFailedPrefix|..];
      assert reply.body.error == AnalysisFailedPrefix + message;
    }
  }
}
