/**
 * The URL detection page: the state behind the address field and the
 * analyse handler, split at its `await` into `Begin` and `Complete` as on
 * the text page. The address is checked for blankness and for its scheme;
 * a failed call has its message rewritten when the server could not
 * extract the article.
 */
module UrlPage {
  import opened Wrappers
  import opened Protocol
  import opened UrlMessages
  import Strings
  import Api
  import Js

  const HttpScheme: string := "http://"
  const HttpsScheme: string := "https://"

  /** Why the handler refuses to send the address. */
  datatype Rejection = Blank | BadScheme {
    /** The message the page shows for it. */
    function Message(): string {
      match this
      case Blank => "Please enter a valid URL"
      case BadScheme => "URL must start with http:// or https://"
    }
  }

  /** The address as typed begins with one of the two accepted schemes. */
  predicate HasWebScheme(url: string) {
    Strings.StartsWith(url, HttpScheme) || Strings.StartsWith(url, HttpsScheme)
  }

  /**
   * The handler's checks, in order: an address that trims to nothing is
   * `Blank`; otherwise the untrimmed address must begin with a scheme.
   */
  function Validate(url: string): (rejection: Option<Rejection>)
    ensures rejection == Some(Blank) <==> Js.Trim(url) == []
    ensures rejection == Some(BadScheme) <==> Js.Trim(url) != [] && !HasWebScheme(url)
    ensures rejection == None <==> Js.Trim(url) != [] && HasWebScheme(url)
  {
    if Js.Trim(url) == "" then Some(Blank)
    else if !HasWebScheme(url) then Some(BadScheme)
    else None
  }

  /**
   * The scheme test alone decides acceptance: an address that begins with a
   * scheme begins with `h`, which is not whitespace, so it is never blank.
   */
  lemma AcceptedExactlyWithScheme(url: string)
    ensures Validate(url) == None <==> HasWebScheme(url)
  {
    if HasWebScheme(url) {
      assert url[0] == 'h';

      Js.TrimEmptyIffAllWhitespace(url);
    }
  }

  /**
   * The scheme is checked on the untrimmed address: a non-blank address that
   * begins with whitespace is refused for its scheme, never sent.
   */
  lemma LeadingWhitespaceIsBadScheme(url: string)
    requires url != [] && Js.IsWhitespace(url[0])
    requires exists i :: 0 <= i < |url| && !Js.IsWhitespace(url[i])
    ensures Validate(url) == Some(BadScheme)
  {
    Js.TrimEmptyIffAllWhitespace(url);

    assert url[0] != 'h';
  }

  /**
   * The message a failed call shows: an extraction failure becomes the
   * guidance text, any other non-empty server error is shown as sent, and
   * without one the fixed message.
   */
  function CallFailureMessage(errorField: Option<string>): (message: string)
    ensures errorField.Some? && errorField.value != "" && Strings.Includes(errorField.value, ExtractionMarker) ==>
              message == Guidance
    ensures errorField.Some? && errorField.value != "" && !Strings.Includes(errorField.value, ExtractionMarker) ==>
              message == errorField.value
    ensures errorField == None || errorField == Some("") ==> message == FailureMessage
  {
    if errorField.Some? && errorField.value != "" then
      if Strings.Includes(errorField.value, ExtractionMarker) then Guidance else errorField.value
    else
      FailureMessage
  }

  /**
   * The server's extraction error is never put in front of the user as is:
   * no message the page shows for a failed call contains the marker, since
   * neither the guidance nor the fixed message contains its first letter.
   */
  lemma ExtractionErrorNeverShown(errorField: Option<string>)
    ensures !Strings.Includes(CallFailureMessage(errorField), ExtractionMarker)
  {
    if errorField.Some? && errorField.value != "" {
      if Strings.Includes(errorField.value, ExtractionMarker) {
        GuidanceFirstLacksC();
        GuidanceSecondLacksC();
        GuidanceThirdLacksC();
        Strings.LacksFirstChar(Guidance, ExtractionMarker);
      }
    } else {
      FailureMessageLacksC();
      Strings.LacksFirstChar(FailureMessage, ExtractionMarker);
    }
  }

  class DetectUrlPage {
    /** `API_BASE`, fixed when the bundle is built. */
    const apiBase: string
    var url: string
    var loading: bool
    var result: Option<AnalysisResult>
    var corroboration: seq<Corroboration>
    var error: string

    /**
     * While a call is outstanding no earlier result is on show, and
     * corroborating sources only accompany a result.
     */
    ghost predicate Valid()
      reads this
    {
      (loading ==> result == None && corroboration == []) &&
      (result == None ==> corroboration == [])
    }

    constructor (env: Option<string>)
      ensures Valid()
      ensures apiBase == Api.ApiBase(env)
      ensures url == "" && !loading && result == None && corroboration == [] && error == ""
    {
      apiBase := Api.ApiBase(env);
      url := "";
      loading := false;
      result := None;
      corroboration := [];
      error := "";
    }

    /** The address field's change handler. */
    method Edit(value: string)
      requires Valid()
      modifies this`url
      ensures Valid()
      ensures url == value
    {
      url := value;
    }

    /**
     * `handleAnalyze` up to the awaited call. A rejected address only sets
     * the message; an accepted one clears the message, the result and the
     * sources, sets `loading`, and issues the request with the address as
     * typed.
     */
    method Begin() returns (request: Option<Api.HttpRequest>)
      requires Valid()
      modifies this`loading, this`error, this`result, this`corroboration
      ensures Valid()
      ensures match Validate(url)
              case Some(rejection) =>
                error == rejection.Message() && request == None &&
                loading == old(loading) && result == old(result) && corroboration == old(corroboration)
              case None =>
                loading && error == "" && result == None && corroboration == [] &&
                request == Some(Api.AnalyzeRequest(apiBase, "url", url))
      ensures request.Some? ==> AnalyzeDisabled()
    {
      var rejection := Validate(url);
      if rejection.Some? {
        error := rejection.value.Message();
        return None;
      }
      var sent := Api.AnalyzeRequest(apiBase, "url", url);
      loading := true;
      error := "";
      result := None;
      corroboration := [];
      request := Some(sent);
    }

    /** The address field's key handler: Enter starts an analysis, other keys do nothing. */
    method KeyPress(key: string) returns (request: Option<Api.HttpRequest>)
      requires Valid()
      modifies this`loading, this`error, this`result, this`corroboration
      ensures Valid()
      ensures key != "Enter" ==> request == None && unchanged(this)
      ensures key == "Enter" ==>
                match Validate(url)
                case Some(rejection) =>
                  error == rejection.Message() && request == None &&
                  loading == old(loading) && result == old(result) && corroboration == old(corroboration)
                case None =>
                  loading && error == "" && result == None && corroboration == [] &&
                  request == Some(Api.AnalyzeRequest(apiBase, "url", url))
      ensures request.Some? ==> AnalyzeDisabled()
    {
      if key == "Enter" {
        request := Begin();
      } else {
        request := None;
      }
    }

    /**
     * `handleAnalyze` after the call settles: a success shows the result and
     * the sources (none when the reply has no list); a failure shows the
     * rewritten message. `loading` ends either way.
     */
    method Complete(outcome: Api.CallOutcome)
      requires Valid()
      modifies this`loading, this`error, this`result, this`corroboration
      ensures Valid()
      ensures !loading
      ensures outcome.Success? ==>
                result == Some(outcome.data.result) &&
                corroboration == outcome.data.corroboration.GetOr([]) &&
                error == old(error)
      ensures outcome.Failure? ==>
                error == CallFailureMessage(outcome.errorField) &&
                result == old(result) && corroboration == old(corroboration)
      ensures !AnalyzeDisabled()
    {
      match outcome {
        case Success(data) =>
          result := Some(data.result);
          corroboration := data.corroboration.GetOr([]);
        case Failure(errorField) =>
          error := CallFailureMessage(errorField);
      }
      loading := false;
    }

    /**
     * The analyse button and the address field are disabled exactly while
     * loading: an accepted `Begin` (by click or by Enter) disables them, so no
     * second request can be issued while one is outstanding, and `Complete`
     * enables them again.
     */
    function AnalyzeDisabled(): (disabled: bool)
      reads this
      ensures disabled <==> loading
    {
      loading
    }
  }
}
