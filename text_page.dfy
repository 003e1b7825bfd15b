/**
 * The text detection page: the state behind the form and the analyse
 * handler. The handler's single `await` splits it in two: `Begin` runs up to
 * the call (validation, reset, the request it issues) and `Complete` runs
 * once the call settles.
 */
module TextPage {
  import opened Wrappers
  import opened Protocol
  import Api
  import Js

  /** The least trimmed length the page accepts. */
  const MinLength: nat := 50

  const FailureMessage: string := "Failed to analyze the text. Please check your connection and try again."

  /** Why the handler refuses to send the text. */
  datatype Rejection = Empty | TooShort {
    /** The message the page shows for it. */
    function Message(): string {
      match this
      case Empty => "Please enter some text to analyze"
      case TooShort => "Please enter at least 50 characters for accurate analysis"
    }
  }

  /**
   * The handler's checks, in order: nothing but whitespace is `Empty`, a
   * trimmed length below 50 is `TooShort`, anything else is sent.
   */
  function Validate(text: string): (rejection: Option<Rejection>)
    ensures rejection == Some(Empty) <==> Js.Trim(text) == []
    ensures rejection == Some(TooShort) <==> 0 < |Js.Trim(text)| < MinLength
    ensures rejection == None <==> |Js.Trim(text)| >= MinLength
  {
    var trimmed := Js.Trim(text);
    if trimmed == "" then Some(Empty)
    else if |trimmed| < MinLength then Some(TooShort)
    else None
  }

  /**
   * Emptiness is checked first: text made only of whitespace (the empty text
   * included) is reported empty, never short, and no other text is.
   */
  lemma WhitespaceOnlyTextIsEmpty(text: string)
    ensures Validate(text) == Some(Empty) <==> forall i :: 0 <= i < |text| ==> Js.IsWhitespace(text[i])
  {
    Js.TrimEmptyIffAllWhitespace(text);
  }

  /** The message a failed call shows: the server's error if it sent a non-empty one. */
  function CallFailureMessage(errorField: Option<string>): (message: string)
    ensures errorField.Some? && errorField.value != "" ==> message == errorField.value
    ensures errorField == None || errorField == Some("") ==> message == FailureMessage
  {
    if errorField.Some? && errorField.value != "" then errorField.value else FailureMessage
  }

  class DetectTextPage {
    /** `API_BASE`, fixed when the bundle is built. */
    const apiBase: string
    var text: string
    var loading: bool
    var result: Option<AnalysisResult>
    var corroboration: seq<Corroboration>
    var error: string

    /**
     * While a call is outstanding no earlier result is on show, and
     * corroborating sources only accompany a result.
     */
    ghost predicate Valid()
      reads this
    {
      (loading ==> result == None && corroboration == []) &&
      (result == None ==> corroboration == [])
    }

    constructor (env: Option<string>)
      ensures Valid()
      ensures apiBase == Api.ApiBase(env)
      ensures text == "" && !loading && result == None && corroboration == [] && error == ""
    {
      apiBase := Api.ApiBase(env);
      text := "";
      loading := false;
      result := None;
      corroboration := [];
      error := "";
    }

    /** The text area's change handler. */
    method Edit(value: string)
      requires Valid()
      modifies this`text
      ensures Valid()
      ensures text == value
    {
      text := value;
    }

    /**
     * `handleAnalyze` up to the awaited call. A rejected text only sets the
     * message and issues nothing; an accepted one clears the message, the
     * result and the sources, sets `loading`, and issues the request with
     * the untrimmed text.
     */
    method Begin() returns (request: Option<Api.HttpRequest>)
      requires Valid()
      modifies this`loading, this`error, this`result, this`corroboration
      ensures Valid()
      ensures match Validate(text)
              case Some(rejection) =>
                error == rejection.Message() && request == None &&
                loading == old(loading) && result == old(result) && corroboration == old(corroboration)
              case None =>
                loading && error == "" && result == None && corroboration == [] &&
                request == Some(Api.AnalyzeRequest(apiBase, "text", text))
      ensures request.Some? ==> AnalyzeDisabled() && ClearDisabled()
    {
      var rejection := Validate(text);
      if rejection.Some? {
        error := rejection.value.Message();
        return None;
      }
      var sent := Api.AnalyzeRequest(apiBase, "text", text);
      loading := true;
      error := "";
      result := None;
      corroboration := [];
      request := Some(sent);
    }

    /**
     * `handleAnalyze` after the call settles: a success shows the result and
     * the sources (none when the reply has no list); a failure shows the
     * server's message or the fixed one. `loading` ends either way.
     */
    method Complete(outcome: Api.CallOutcome)
      requires Valid()
      modifies this`loading, this`error, this`result, this`corroboration
      ensures Valid()
      ensures !loading
      ensures outcome.Success? ==>
                result == Some(outcome.data.result) &&
                corroboration == outcome.data.corroboration.GetOr([]) &&
                error == old(error)
      ensures outcome.Failure? ==>
                error == CallFailureMessage(outcome.errorField) &&
                result == old(result) && corroboration == old(corroboration)
      ensures ClearDisabled() <==> text == ""
      ensures AnalyzeDisabled() <==> |text| < MinLength
    {
      match outcome {
        case Success(data) =>
          result := Some(data.result);
          corroboration := data.corroboration.GetOr([]);
        case Failure(errorField) =>
          error := CallFailureMessage(errorField);
      }
      loading := false;
    }

    /** The clear button's handler: the text is emptied; nothing else changes. */
    method Clear()
      requires Valid()
      modifies this`text
      ensures Valid()
      ensures text == ""
      ensures ClearDisabled() && AnalyzeDisabled()
    {
      text := "";
    }

    /**
     * The clear button is disabled while loading or when there is no text to
     * clear. An accepted `Begin` and `Clear` leave it disabled; `Complete`
     * enables it again exactly when there is text.
     */
    function ClearDisabled(): (disabled: bool)
      reads this
      ensures !disabled <==> !loading && text != ""
    {
      loading || text == ""
    }

    /**
     * The analyse button is disabled while loading or below 50 raw
     * characters. An accepted `Begin` disables it, so no second request can
     * be issued while one is outstanding; `Complete` enables it again exactly
     * when the text is long enough.
     */
    function AnalyzeDisabled(): (disabled: bool)
      reads this
      ensures !disabled ==> !loading && |text| >= MinLength
      ensures loading || |text| < MinLength ==> disabled
    {
      loading || |text| < MinLength
    }
  }

  /**
   * The button counts raw characters but the handler counts trimmed ones:
   * when the button is enabled, only surrounding whitespace can still make
   * the handler reject the text.
   */
  lemma EnabledUnpaddedTextIsAccepted(text: string)
    requires |text| >= MinLength
    requires !Js.IsWhitespace(text[0]) && !Js.IsWhitespace(text[|text| - 1])
    ensures Validate(text) == None
  {
    Js.TrimUnpadded(text);
  }

  /** Text without surrounding whitespace and shorter than 50 characters is rejected as short. */
  lemma ShortUnpaddedTextIsRejected(text: string)
    requires 0 < |text| < MinLength
    requires !Js.IsWhitespace(text[0]) && !Js.IsWhitespace(text[|text| - 1])
    ensures Validate(text) == Some(TooShort)
  {
    Js.TrimUnpadded(text);
  }
}
