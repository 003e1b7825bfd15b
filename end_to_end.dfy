/**
 * Properties of the whole request path: what a page accepts, as the API
 * client sends it and the server reads it, and how the server's reply is
 * shown back on the page.
 */
module EndToEnd {
  import opened Wrappers
  import opened Protocol
  import Strings
  import Js
  import Api
  import Routes
  import Search
  import TextPage
  import UrlPage
  import UrlMessages

  /** The server reads a url payload in url mode, with the url the page sent. */
  lemma UrlPayloadIsReadAsUrl(url: string)
    ensures Routes.UrlMode(Api.Payload("url", url))
    ensures Routes.Get(Api.Payload("url", url), "url") == Some(url)
  {
  }

  /** The server reads a text payload in text mode, with the text the page sent. */
  lemma TextPayloadIsReadAsText(text: string)
    ensures !Routes.UrlMode(Api.Payload("text", text))
    ensures Routes.Get(Api.Payload("text", text), "text") == Some(text)
  {
  }

  /** A url the page accepts never draws the server's missing-url error. */
  lemma AcceptedUrlIsNeverMissing(url: string, extract: string -> string)
    requires UrlPage.Validate(url) == None
    ensures Routes.Prepare(Api.Payload("url", url), extract) != Routes.Reject(Routes.NoUrlError)
  {
    UrlPayloadIsReadAsUrl(url);
    assert url != [];
  }

  /** A text the page accepts never draws the server's missing-text error. */
  lemma AcceptedTextIsNeverMissing(text: string, extract: string -> string)
    requires TextPage.Validate(text) == None
    ensures Routes.Prepare(Api.Payload("text", text), extract).Proceed?
  {
    TextPayloadIsReadAsText(text);
    assert |Js.Trim(text)| <= |text|;
  }

  /** The server's extraction error contains the marker the URL page looks for. */
  lemma ExtractionErrorHasMarker()
    ensures Strings.Includes(Routes.ExtractionError, UrlMessages.ExtractionMarker)
  {
    assert Strings.OccursAt(Routes.ExtractionError, UrlMessages.ExtractionMarker, 0);
  }

  /**
   * When the server cannot extract the article behind an accepted url, the
   * URL page shows the guidance text, not the server's message.
   */
  lemma ExtractionFailureShowsGuidance(
    url: string,
    extract: string -> string,
    predict: string -> Routes.Call<AnalysisResult>,
    corroborate: string -> Routes.Call<seq<Corroboration>>
  )
    requires UrlPage.Validate(url) == None
    requires extract(url) == ""
    ensures var reply := Routes.Analyze(Api.Payload("url", url), extract, predict, corroborate);
            var outcome := Api.Deliver(Some(reply));
            outcome == Api.Failure(Some(Routes.ExtractionError)) &&
            UrlPage.CallFailureMessage(outcome.errorField) == UrlMessages.Guidance
  {
    UrlPayloadIsReadAsUrl(url);
    assert url != [];
    ExtractionErrorHasMarker();
  }

  /**
   * The server's corroboration never raises, so with it every 500 reply
   * comes from the classifier.
   */
  lemma InternalErrorsComeFromPrediction(
    data: JsonObject,
    extract: string -> string,
    predict: string -> Routes.Call<AnalysisResult>,
    search: (string, nat) -> Search.SearchReply
  )
    ensures var corroborate := (query: string) => Routes.Returned(Search.Corroborate(query, search));
            var reply := Routes.Analyze(data, extract, predict, corroborate);
            reply.status == Routes.InternalError ==>
              var plan := Routes.Prepare(data, extract);
              plan.Proceed? && predict(plan.articleText).Raised? &&
              reply.body == ErrorBody(Routes.AnalysisFailedPrefix + predict(plan.articleText).message)
  {
  }

  /** A 500 reply's message reaches the text page as the server wrote it. */
  lemma InternalErrorShownOnTextPage(
    data: JsonObject,
    extract: string -> string,
    predict: string -> Routes.Call<AnalysisResult>,
    corroborate: string -> Routes.Call<seq<Corroboration>>
  )
    ensures var reply := Routes.Analyze(data, extract, predict, corroborate);
            reply.status == Routes.InternalError ==>
              TextPage.CallFailureMessage(Api.Deliver(Some(reply)).errorField) == reply.body.error
  {
    Routes.InternalErrorsArePrefixed(data, extract, predict, corroborate);
  }

  /** A successful reply reaches a page with its result and all its sources. */
  lemma SuccessReachesPage(
    data: JsonObject,
    extract: string -> string,
    predict: string -> Routes.Call<AnalysisResult>,
    corroborate: string -> Routes.Call<seq<Corroboration>>
  )
    ensures var reply := Routes.Analyze(data, extract, predict, corroborate);
            var outcome := Api.Deliver(Some(reply));
            reply.status == Routes.Ok ==>
              outcome.Success? && outcome.data.result == reply.body.result &&
              outcome.data.corroboration.GetOr([]) == reply.body.corroboration
  {
  }

  /** A fresh text page refuses a short text with the length message and sends nothing. */
  method ShortTextScenario() returns (request: Option<Api.HttpRequest>, error: string)
    ensures request == None
    ensures error == "Please enter at least 50 characters for accurate analysis"
  {
    var page := new TextPage.DetectTextPage(None);
    page.Edit("Too short to judge");
    TextPage.ShortUnpaddedTextIsRejected("Too short to judge");
    request := page.Begin();
    error := page.error;
  }

  /** A fresh URL page refuses an ftp address with the scheme message and sends nothing. */
  method FtpAddressScenario() returns (request: Option<Api.HttpRequest>, error: string)
    ensures request == None
    ensures error == "URL must start with http:// or https://"
  {
    var page := new UrlPage.DetectUrlPage(None);
    page.Edit("ftp://x.com");
    Js.TrimEmptyIffAllWhitespace("ftp://x.com");
    assert !Js.IsWhitespace("ftp://x.com"[0]);
    assert "ftp://x.com"[..7][0] == 'f';
    request := page.Begin();
    error := page.error;
  }

  /** The example address starts with "https://", so the URL page accepts it. */
  lemma ExampleAddressHasScheme()
    ensures UrlPage.Validate("https://example.com/news") == None
  {
    var address := "https://example.com/news";
    assert address[..8] == "https://";
    UrlPage.AcceptedExactlyWithScheme(address);
  }

  /**
   * A fresh URL page with no configured base sends an accepted address to
   * the loopback endpoint, as a url payload.
   */
  method AcceptedAddressScenario() returns (request: Option<Api.HttpRequest>, loading: bool)
    ensures loading
    ensures request.Some? && request.value.url == "http://127.0.0.1:5000/analyze"
    ensures request.Some? && request.value.body == map["mode" := JStr("url"), "url" := JStr("https://example.com/news")]
  {
    var page := new UrlPage.DetectUrlPage(None);
    page.Edit("https://example.com/news");
    ExampleAddressHasScheme();
    request := page.Begin();
    loading := page.loading;
  }
}
