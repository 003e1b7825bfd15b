# TruthGaurd analysis path in Dafny

This project models the request path of TruthGaurd, a fake-news detector,
from a detection page in the browser to the server and back.

- **The two detection pages** (text and URL) are classes that hold the page state: the input, `loading`, `result`, `corroboration` and `error`.
  - Their `handleAnalyze` handler is split at its single `await`. `Begin` validates the input, resets the state and issues the request. `Complete` applies the outcome of the call.
  - The display of a result (the verdict and the two sentiment classes) is a set of functions over `real`.
- **The API client** builds the POST request: the base address, the endpoint, the payload, the headers and the timeout. It also turns the server's reply into the outcome a page sees.
- **The server's `/analyze` endpoint** is a function from the JSON request and three collaborators to a status and a body.
  - The collaborators are article extraction, the classifier and the web search. They are parameters.
  - A collaborator that can raise returns a `Call` value: either `Returned` or `Raised`.
- **`clean_text` and `tokenize`** are pipelines of string functions over ASCII semantics.
- **`web_corroborate`** is a method with the normalisation loop. It is proved equal to a specification function.

Module layout, one module per file:

- `wrappers.dfy`: `Option`.
- `protocol.dfy`: the JSON shapes shared by client and server.
- `strings.dfy`: the trimming, prefix and substring operations used by both sides. Whitespace follows either the JavaScript or the Python convention.
- `js.dfy`: JavaScript's `trim`.
- `api.dfy`: the API client.
- `display.dfy`: the verdict and the sentiment classes.
- `text_page.dfy`: the text page.
- `url_messages.dfy`: the URL page's fixed failure texts.
- `url_page.dfy`: the URL page.
- `routes.dfy`: the endpoint.
- `preprocess.dfy`: text cleaning and tokenising.
- `search.dfy`: corroboration.
- `end_to_end.dfy`: properties that join the client and the server.

The pages have no guard against a stale reply. They rely on disabling their inputs and buttons while a call is outstanding. So `Complete` applies whatever outcome it is given, and the model has no request numbering. The handlers' contracts prove that this protection holds: an accepted `Begin` leaves the analyse button disabled, and only `Complete` enables it again.

## Model

| member | source | states |
|---|---|---|
| Strings.Includes | frontend/app/detect-url/page.tsx:38 | `includes` is true exactly when the substring occurs at some position |
| Strings.LacksFirstChar | frontend/app/detect-url/page.tsx:38 | a string that lacks the first character of a substring does not include it |
| Strings.IsSpace | frontend/app/detect-text/page.tsx:16 | whitespace under either convention: JavaScript's `trim` set (WhiteSpace and LineTerminator), or Python's `\s`/`strip`/`split` set restricted to ASCII (also src/utils/preprocess.py:27-28) |
| Strings.PythonSpaces | src/utils/preprocess.py:27-28 | Python whitespace on ASCII is exactly tab, line feed, vertical tab, form feed, carriage return, the four separators 0x1C-0x1F and space |
| Strings.JavaScriptSpaces | frontend/app/detect-text/page.tsx:16 | JavaScript whitespace is exactly the 25 listed characters, from tab to the byte order mark |
| Strings.StartsWith | frontend/app/detect-url/page.tsx:21 | `startsWith`: the string is at least as long as the prefix and begins with it |
| Strings.TrimStart | frontend/app/detect-text/page.tsx:16 | leading trim never lengthens the string |
| Strings.TrimEnd | frontend/app/detect-text/page.tsx:16 | trailing trim never lengthens the string |
| Strings.Trim | frontend/app/detect-text/page.tsx:16 | trimming never lengthens the string |
| Strings.TrimStartFacts | frontend/app/detect-text/page.tsx:16 | leading trim leaves a suffix, removes only whitespace, and stops at a non-whitespace character |
| Strings.TrimEndFacts | frontend/app/detect-text/page.tsx:16 | trailing trim leaves a prefix, removes only whitespace, and stops at a non-whitespace character |
| Strings.TrimFacts | src/utils/preprocess.py:28 | the trimmed string is a contiguous stretch of the input with only whitespace around it |
| Strings.TrimEnds | src/utils/preprocess.py:28 | neither end of the trimmed string is whitespace |
| Strings.TrimUnchanged | src/utils/preprocess.py:28 | a string whose ends are not whitespace is its own trim |
| Strings.TrimEmptyIffAllSpace | frontend/app/detect-text/page.tsx:16 | the trim is empty exactly when every character is whitespace |
| Js.Trim | frontend/app/detect-text/page.tsx:16 | JavaScript `trim` never lengthens the string |
| Js.TrimEmptyIffAllWhitespace | frontend/app/detect-text/page.tsx:16 | `!text.trim()` holds exactly for whitespace-only text, the empty text included |
| Js.TrimUnpadded | frontend/app/detect-text/page.tsx:21 | text without whitespace at its ends keeps its length under `trim` |
| Api.ApiBase | frontend/lib/api.ts:3 | the base is the environment value when it is set and non-empty, otherwise `http://127.0.0.1:5000`, and never empty |
| Api.Endpoint | frontend/lib/api.ts:22 | the address ends with `/analyze`, and what precedes it is the base without one trailing slash, if the base has one |
| Api.EndpointIgnoresOneTrailingSlash | frontend/lib/api.ts:22 | a base with one added trailing slash reaches the same endpoint as without it |
| Api.EndpointKeepsSecondSlash | frontend/lib/api.ts:22 | only one trailing slash is removed: with two, one remains in the address |
| Api.Payload | frontend/lib/api.ts:21 | the body `analyzeContent` sends; its shape is stated by `Api.PayloadShape` |
| Api.PayloadShape | frontend/lib/api.ts:21 | mode "url" sends exactly `{mode: "url", url}`; any other mode sends exactly `{mode: "text", text}`; never both content fields; the value is unchanged |
| Api.AnalyzeRequest | frontend/lib/api.ts:22-25 | the POST `analyzeContent` issues; its parts are stated by `Api.AnalyzeRequestShape` |
| Api.AnalyzeRequestShape | frontend/lib/api.ts:22-24 | the request goes to the endpoint with the payload, the JSON content type and a 60000 ms timeout |
| Api.Deliver | frontend/lib/api.ts:22-26 | no reply fails with no error field; a 2xx reply succeeds and passes the result and the sources through unchanged; any other reply fails and exposes the server's `error` |
| Display.IsFake | frontend/app/detect-text/page.tsx:46 | the verdict is "fake" exactly when there is a result and its label is 1 (the same expression is at detect-url/page.tsx:53) |
| Display.PolarityClass | frontend/app/detect-text/page.tsx:173 | Positive exactly above 0, Negative exactly below 0, Neutral exactly at 0 (also detect-url/page.tsx:165) |
| Display.SubjectivityClass | frontend/app/detect-text/page.tsx:183 | "Highly subjective" exactly above 0.5, "More objective" otherwise (also detect-url/page.tsx:175) |
| Display.VerdictIgnoresProbability | frontend/app/detect-text/page.tsx:46 | the verdict depends on the label only, not on the probability |
| Display.PolarityClassAntisymmetric | frontend/app/detect-text/page.tsx:173 | negating the polarity swaps Positive and Negative and keeps Neutral |
| Display.SubjectivityClassMonotone | frontend/app/detect-text/page.tsx:183 | above a highly subjective score, every score is highly subjective |
| Display.SubjectivityBoundary | frontend/app/detect-text/page.tsx:183 | exactly 0.5 is "More objective" and 0.51 is not; polarity 0 is Neutral |
| TextPage.Validate | frontend/app/detect-text/page.tsx:16-24 | `Empty` exactly when the trimmed text is empty; `TooShort` exactly when it has 1 to 49 characters; accepted exactly at 50 or more |
| TextPage.WhitespaceOnlyTextIsEmpty | frontend/app/detect-text/page.tsx:16-19 | the empty message is chosen exactly for whitespace-only text, before any length check |
| TextPage.CallFailureMessage | frontend/app/detect-text/page.tsx:36-40 | a non-empty server error is shown as sent; without one, the fixed "Failed to analyze the text..." message |
| TextPage.DetectTextPage.constructor | frontend/app/detect-text/page.tsx:9-13 | the page starts empty, not loading, with no result, no sources and no error; the base is fixed from the environment |
| TextPage.DetectTextPage.Edit | frontend/app/detect-text/page.tsx:90 | the change handler sets the text and nothing else |
| TextPage.DetectTextPage.Begin | frontend/app/detect-text/page.tsx:15-32 | a rejected text sets only the message and sends nothing, so a prior result stays on show; an accepted text sets `loading`, clears the message, the result and the sources, and sends the untrimmed text in mode "text"; a request is only issued with both buttons left disabled; the page invariant is kept |
| TextPage.DetectTextPage.Complete | frontend/app/detect-text/page.tsx:33-43 | success shows the result and the sources, or none when the list is absent; failure sets the message and leaves the result; `loading` ends either way, so the clear button is enabled again exactly when there is text and the analyse button exactly at 50 raw characters |
| TextPage.DetectTextPage.Clear | frontend/app/detect-text/page.tsx:99 | the clear button empties the text and changes nothing else, leaving both buttons disabled |
| TextPage.DetectTextPage.ClearDisabled | frontend/app/detect-text/page.tsx:101 | `loading || !text`: enabled exactly when not loading and the text is non-empty; the handlers' contracts state when it holds (an accepted `Begin` and `Clear` set it, `Complete` clears it exactly for non-empty text) |
| TextPage.DetectTextPage.AnalyzeDisabled | frontend/app/detect-text/page.tsx:108 | the analyse button is enabled only when not loading and the raw text has at least 50 characters; an accepted `Begin` disables it, so no second request leaves while one is outstanding |
| TextPage.EnabledUnpaddedTextIsAccepted | frontend/app/detect-text/page.tsx:21 | with the button enabled, only whitespace at the ends can still make the handler refuse a text |
| TextPage.ShortUnpaddedTextIsRejected | frontend/app/detect-text/page.tsx:21-24 | a text of 1 to 49 characters, without whitespace at its ends, gets the length message |
| UrlMessages.GuidanceFirstLacksC | frontend/app/detect-url/page.tsx:40 | the first sentence of the guidance has no capital C |
| UrlMessages.GuidanceSecondLacksC | frontend/app/detect-url/page.tsx:40 | the second sentence of the guidance has no capital C |
| UrlMessages.GuidanceThirdLacksC | frontend/app/detect-url/page.tsx:40 | the third sentence of the guidance has no capital C |
| UrlMessages.FailureMessageLacksC | frontend/app/detect-url/page.tsx:46 | the fixed failure message has no capital C |
| UrlPage.Validate | frontend/app/detect-url/page.tsx:16-24 | `Blank` exactly when the trimmed address is empty; `BadScheme` exactly when the address is not blank and its untrimmed form starts with neither scheme; accepted otherwise |
| UrlPage.AcceptedExactlyWithScheme | frontend/app/detect-url/page.tsx:16-24 | an address is accepted exactly when it starts with "http://" or "https://" |
| UrlPage.LeadingWhitespaceIsBadScheme | frontend/app/detect-url/page.tsx:21-24 | a non-blank address that starts with whitespace is refused for its scheme |
| UrlPage.CallFailureMessage | frontend/app/detect-url/page.tsx:36-46 | an error containing "Could not extract text" becomes the guidance; any other non-empty error is shown as sent; without one, the fixed "Failed to analyze the URL..." message |
| UrlPage.ExtractionErrorNeverShown | frontend/app/detect-url/page.tsx:36-46 | no message the page shows for a failed call contains "Could not extract text" |
| UrlPage.DetectUrlPage.constructor | frontend/app/detect-url/page.tsx:9-13 | the page starts empty, not loading, with no result, no sources and no error |
| UrlPage.DetectUrlPage.Edit | frontend/app/detect-url/page.tsx:92 | the change handler sets the address and nothing else |
| UrlPage.DetectUrlPage.Begin | frontend/app/detect-url/page.tsx:15-32 | a rejected address sets only the message and sends nothing; an accepted one resets the state as on the text page and sends the untrimmed address in mode "url", leaving the button and field disabled; the page invariant is kept |
| UrlPage.DetectUrlPage.KeyPress | frontend/app/detect-url/page.tsx:93 | Enter has exactly the effect of `Begin` on the message, `loading`, the result, the sources and the request; any other key changes nothing and sends nothing |
| UrlPage.DetectUrlPage.Complete | frontend/app/detect-url/page.tsx:33-50 | success shows the result and the sources, or none when absent; failure shows the rewritten message; `loading` ends either way, which enables the button and field again |
| UrlPage.DetectUrlPage.AnalyzeDisabled | frontend/app/detect-url/page.tsx:96-100 | `disabled={loading}` on the field and the button; the handlers' contracts state that an accepted `Begin` or Enter sets it and `Complete` clears it, so no second request leaves while one is outstanding |
| Routes.Get | src/web/routes.py:17-19 | `data.get(key)` gives a string exactly when the field is present and holds a string |
| Routes.UrlMode | src/web/routes.py:19 | `data.get("mode", "url") == "url"`: the default applies only to an absent mode; `Routes.MissingModeMeansUrl` and `Routes.NullModeMeansText` state the consequences |
| Routes.Prefix | src/web/routes.py:34 | `s[:n]` has length `min(len(s), n)` and is an initial part of `s` |
| Routes.Prepare | src/web/routes.py:17-37 | any text sent on is non-empty; url mode queries with the url and classifies its extraction; text mode classifies the text and queries with at most its first 160 characters; each rejection carries the error of its branch |
| Routes.UrlModeRejections | src/web/routes.py:23-31 | "No URL provided" exactly when the url is missing or empty; the extraction error exactly when the url is present and extraction yields nothing |
| Routes.TextModeRejection | src/web/routes.py:32-37 | "No text provided for analysis" exactly when the text is missing or empty |
| Routes.Analyze | src/web/routes.py:14-45 | status 400 exactly for a rejected request, with its error; 200 only with the classifier's and the search's values in a body that has both fields; 500 only when the classifier, or else the search, raised, with "Analysis failed: " and its message; status and body always agree |
| Routes.MissingModeMeansUrl | src/web/routes.py:19 | a request without a mode is answered exactly as one with mode "url" |
| Routes.NullModeMeansText | src/web/routes.py:19-23 | a null mode is not defaulted: it is answered exactly as mode "text" |
| Routes.TextModeIgnoresUrl | src/web/routes.py:32-37 | in text mode the url field has no effect on the reply |
| Routes.UrlModeIgnoresText | src/web/routes.py:23-31 | in url mode the text field has no effect on the reply |
| Routes.InternalErrorsArePrefixed | src/web/routes.py:43-45 | every 500 reply's error begins with "Analysis failed: " |
| Preprocess.WordLength | src/utils/preprocess.py:16 | the length of the leading run of non-whitespace characters |
| Preprocess.UrlStart | src/utils/preprocess.py:16 | `https?://\S+\|www\.\S+` matches at the start exactly when the first word begins with one literal part and is longer than it |
| Preprocess.IsPunctuation | src/utils/preprocess.py:14 | the four ASCII ranges of `string.punctuation` |
| Preprocess.PunctuationListed | src/utils/preprocess.py:14 | the ranges hold exactly the 32 characters of `string.punctuation` |
| Preprocess.StripUrls | src/utils/preprocess.py:24 | every output character is a space or comes from the input; together `Preprocess.StripUrlsAppend`, `Preprocess.StripUrlsWord` and `Preprocess.StripUrlsPlainWord` fix the output of every input |
| Preprocess.RemovePunctuation | src/utils/preprocess.py:25 | the output has no punctuation, and a character occurs in it exactly when it occurs in the input and is not punctuation |
| Preprocess.RemovePunctuationKeepsOccurrences | src/utils/preprocess.py:25 | the output is a subsequence of the input holding every other character as often as the input does, so the characters are kept in order |
| Preprocess.RemovePunctuationAppend | src/utils/preprocess.py:25 | deleting punctuation from a concatenation deletes it from each part |
| Preprocess.LowerChar | src/utils/preprocess.py:26 | a capital becomes its small letter; any other character is unchanged |
| Preprocess.ToLower | src/utils/preprocess.py:26 | lower-casing keeps the length and maps each character on its own |
| Preprocess.Collapse | src/utils/preprocess.py:27 | the only whitespace left is single spaces, never two in a row; a space begins the output exactly when whitespace began the input; a non-whitespace character occurs in the output exactly when it occurs in the input |
| Preprocess.CollapseKeepsText | src/utils/preprocess.py:27 | with whitespace deleted, output and input are the same string: only whitespace runs change |
| Preprocess.CollapseAppend | src/utils/preprocess.py:27 | `Collapse(a + b) == Collapse(a) + Collapse(b)` unless `a` ends and `b` begins with whitespace |
| Preprocess.CollapseAppendSpace | src/utils/preprocess.py:27 | the same for an `a` that starts with whitespace |
| Preprocess.CollapseRun | src/utils/preprocess.py:27 | a non-empty run of whitespace of any kind becomes exactly one space; with `Preprocess.CollapseAppend` this fixes the output of every input |
| Preprocess.Strip | src/utils/preprocess.py:28 | stripping never lengthens the string |
| Preprocess.CleanText | src/utils/preprocess.py:20-28 | a missing or empty text gives ""; every output has no punctuation, no capitals, single spaces only, and no space at either end |
| Preprocess.ToLowerKeeps | src/utils/preprocess.py:26 | lower-casing creates no punctuation and no whitespace |
| Preprocess.CleanStagesAreClean | src/utils/preprocess.py:24-28 | the four stages together produce a clean string |
| Preprocess.CollapseKeepsLowered | src/utils/preprocess.py:27 | collapsing whitespace brings in no punctuation and no capitals |
| Preprocess.StripOfCollapsed | src/utils/preprocess.py:28 | stripping a single-spaced text without punctuation or capitals leaves a clean string |
| Preprocess.UrlStartFromWordPrefix | src/utils/preprocess.py:16 | a match at the start of a word is a match at the start of any longer word that begins the same way |
| Preprocess.StripUrlsFirstWord | src/utils/preprocess.py:24 | the first word of the output is an initial part of the first word of the input |
| Preprocess.NoMatchAfterFront | src/utils/preprocess.py:16 | adding one character in front of a string creates no match after that character |
| Preprocess.StripUrlsLeavesNoMatch | src/utils/preprocess.py:24 | no match of `https?://\S+\|www\.\S+` is left anywhere in the output |
| Preprocess.StripUrlsWithoutMatch | src/utils/preprocess.py:24 | a string without a match is left unchanged |
| Preprocess.StripUrlsIdempotent | src/utils/preprocess.py:24 | removing URLs twice gives the same as once |
| Preprocess.StripUrlsAppend | src/utils/preprocess.py:24 | after whitespace, input is processed independently: `StripUrls(a + b) == StripUrls(a) + StripUrls(b)` when `a` is empty or ends in whitespace |
| Preprocess.StripUrlsAppendStep | src/utils/preprocess.py:24 | the first word or character of `a` is handled alike in `a` and in `a + b` when `a` ends in whitespace |
| Preprocess.FirstWordWithin | src/utils/preprocess.py:16 | when `a` ends in whitespace, `a + b` and `a` have the same first word and both begin with a match or neither does |
| Preprocess.StripUrlsWord | src/utils/preprocess.py:24 | for a word followed by whitespace or by nothing, the word is kept up to the first position where the pattern matches, the rest of the word becomes exactly one space, and what follows is processed on its own |
| Preprocess.StripUrlsPlainWord | src/utils/preprocess.py:24 | a word without a match, followed by whitespace or by nothing, is kept, and what follows is processed on its own |
| Preprocess.StripUrlsKeepsPrefix | src/utils/preprocess.py:24 | a prefix in which no match begins is kept, and the scan resumes after it |
| Preprocess.WordThen | src/utils/preprocess.py:16 | from any position inside a word followed by whitespace, the match test sees only the rest of that word |
| Preprocess.MatchRunsToWordEnd | src/utils/preprocess.py:16 | a match inside a word followed by whitespace consumes the rest of the word and becomes one space |
| Preprocess.NoMatchBeforeFirst | src/utils/preprocess.py:16 | before the first match inside such a word, no match begins |
| Preprocess.NoMarkNoMatch | src/utils/preprocess.py:16 | a string without `:` and `.` does not begin with a match |
| Preprocess.StripUrlsWithoutMarks | src/utils/preprocess.py:24 | a string without `:` and `.` is left unchanged |
| Preprocess.RemovePunctuationWithout | src/utils/preprocess.py:25 | a string without punctuation is left unchanged |
| Preprocess.CollapseSingleSpaced | src/utils/preprocess.py:27 | a single-spaced string is left unchanged |
| Preprocess.CleanFixpoint | src/utils/preprocess.py:20-28 | `clean_text` leaves every clean string as it is |
| Preprocess.CleanTextIdempotent | src/utils/preprocess.py:20-28 | `clean_text(clean_text(x)) == clean_text(x)` |
| Preprocess.Split | src/utils/preprocess.py:34 | `split()` yields non-empty words without whitespace; `Preprocess.SplitAppend`, `Preprocess.SplitAllSpace` and `Preprocess.WordOfSpaceFree` fix the output of every input |
| Preprocess.SplitAppend | src/utils/preprocess.py:34 | `Split(a + b) == Split(a) + Split(b)` whenever the border is not inside a word |
| Preprocess.SplitAppendWord | src/utils/preprocess.py:34 | the same for an `a` that starts with a word |
| Preprocess.SplitOneWord | src/utils/preprocess.py:34 | the same when `a` is one word |
| Preprocess.SplitWordThenRest | src/utils/preprocess.py:34 | the same for a word followed by more of `a`, given the result for the rest of `a` |
| Preprocess.SplitFirstWord | src/utils/preprocess.py:34 | splitting `a` and `a + b` both begin with the first word of `a` when `b` does not continue that word |
| Preprocess.WordOfAppend | src/utils/preprocess.py:34 | `a + b` and `a` have the same first word when `b` does not continue it |
| Preprocess.WordLengthWithin | src/utils/preprocess.py:34 | a word that ends inside `a` is not lengthened by what follows `a` |
| Preprocess.SplitAllSpace | src/utils/preprocess.py:34 | a string of whitespace only has no words |
| Preprocess.SplitJoin | src/utils/preprocess.py:34 | splitting words joined by single spaces gives back the same words |
| Preprocess.SplitWordThenSpace | src/utils/preprocess.py:34 | a word, a space, then the rest: the word comes first and the rest is split on its own |
| Preprocess.WordOfSpaceFree | src/utils/preprocess.py:34 | a word followed by nothing or by whitespace is the first word of the split |
| Preprocess.WordLengthPrefix | src/utils/preprocess.py:34 | the leading run of such a string is exactly that word |
| Preprocess.Keep | src/utils/preprocess.py:36 | the token test: not a stopword, alphabetic, longer than two characters |
| Preprocess.KeepTokens | src/utils/preprocess.py:36 | the kept tokens appear in order in the input and all pass the test, and every token that passes is kept as often as it occurs |
| Preprocess.KeepTokensAppend | src/utils/preprocess.py:36 | filtering a concatenation filters each part |
| Preprocess.Tokenize | src/utils/preprocess.py:31-36 | a missing or empty text gives []; otherwise the tokens are an ordered subsequence of `split()`, all alphabetic, longer than 2 and not stopwords, and each word that passes appears as often as in `split()` |
| Search.Get | src/utils/search.py:18-20 | `r.get(key)` is the field's value exactly when the field is present |
| Search.Normalize | src/utils/search.py:17-21 | the title and snippet are the result's `title` and `body`; the link is a non-empty `href`, otherwise the `url` field |
| Search.Corroborate | src/utils/search.py:5-24 | an empty query or a failed search gives []; otherwise one normalised entry per result, in the same order |
| Search.WebCorroborate | src/utils/search.py:5-24 | the loop's output is exactly the specification's entries |
| Search.EmptyQueryIgnoresSearch | src/utils/search.py:9-10 | the answer to an empty query does not depend on the search engine |
| Search.LinkFallback | src/utils/search.py:19 | a non-empty `href` wins; an empty one falls back to `url`; with neither there is no link |
| EndToEnd.UrlPayloadIsReadAsUrl | frontend/lib/api.ts:21 | the server reads a url payload in url mode, with the sent url |
| EndToEnd.TextPayloadIsReadAsText | frontend/lib/api.ts:21 | the server reads a text payload in text mode, with the sent text |
| EndToEnd.AcceptedUrlIsNeverMissing | src/web/routes.py:24-25 | an address the URL page accepts never gets "No URL provided" |
| EndToEnd.AcceptedTextIsNeverMissing | src/web/routes.py:36-37 | a text the text page accepts always passes the server's text check |
| EndToEnd.ExtractionErrorHasMarker | src/web/routes.py:31 | the server's extraction error contains "Could not extract text" |
| EndToEnd.ExtractionFailureShowsGuidance | frontend/app/detect-url/page.tsx:36-41 | for an accepted address whose article cannot be extracted, the reply is the extraction error and the page shows the guidance |
| EndToEnd.InternalErrorsComeFromPrediction | src/utils/search.py:23-24 | with the real corroboration, which never raises, every 500 comes from the classifier |
| EndToEnd.InternalErrorShownOnTextPage | frontend/app/detect-text/page.tsx:36-37 | the text page shows a 500's message as the server wrote it |
| EndToEnd.SuccessReachesPage | frontend/app/detect-text/page.tsx:33-34 | a 200 reply reaches the page as a success with its result and all its sources |
| EndToEnd.ShortTextScenario | frontend/app/detect-text/page.tsx:21-24 | a short text on a fresh page gets the length message and sends nothing |
| EndToEnd.FtpAddressScenario | frontend/app/detect-url/page.tsx:21-24 | "ftp://x.com" on a fresh page gets the scheme message and sends nothing |
| EndToEnd.ExampleAddressHasScheme | frontend/app/detect-url/page.tsx:21 | the URL page accepts "https://example.com/news" |
| EndToEnd.AcceptedAddressScenario | frontend/app/detect-url/page.tsx:26-32 | an accepted address on a fresh page sets `loading` and is sent to `http://127.0.0.1:5000/analyze` as a url payload |

## Left out

- Rendering, animation and layout of the pages. The other pages, the navigation bar and the `/` and `/train` routes are left out because they are presentation or wiring.
- The confidence percentage and the sentiment scores formatted with `toFixed`: floating-point formatting.
- The HTTP client's transport. A reply, or its absence on a network failure or the 60-second timeout, is an input to `Api.Deliver`. Replies that are not JSON objects are not modelled.
- The interleaving of several outstanding calls. The model gives each page a `Begin` and a `Complete` and lets any outcome complete.
- The classifier, the sentiment scorer, article extraction and the search engine are parameters. The machine-learning pipeline, the sentiment scorer and the extraction code are not part of this model.
- Logging with `print` on the server.
- Routes.Get: the model's JSON values are strings and null only. A number, list or object in `url`, `text` or `mode` is not modelled, and Python truthiness of such values is not covered.
- Js.Trim: the page compares `text.trim().length` with 50. JavaScript counts UTF-16 code units; the model counts characters, so a character outside the Basic Multilingual Plane counts once instead of twice.
- TextPage.Validate: the trimmed length compared with 50 is counted in characters, not in UTF-16 code units, as for `Js.Trim`.
- TextPage.DetectTextPage.AnalyzeDisabled: `charCount = text.length` (frontend/app/detect-text/page.tsx:48) is counted in characters, not in UTF-16 code units, as for `Js.Trim`.
- Preprocess.CleanText: whitespace, case and punctuation are ASCII only. Python's `\s`, `strip` and `lower` also act on non-ASCII whitespace and letters; the model leaves those characters as they are.
- Preprocess.Tokenize: `isalpha` is ASCII letters only. The stopword list is a parameter because its contents come from NLTK.
- Search.WebCorroborate: the exception handler also covers normalisation. In the model normalisation cannot fail, because a raw result is always a map of strings.
