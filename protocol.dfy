/**
 * The JSON shapes exchanged between the browser client and the Flask
 * server's `/analyze` endpoint.
 */
module Protocol {
  import opened Wrappers

  /** The string and null values a JSON request field can hold in this model. */
  datatype Json = JNull | JStr(s: string)

  /** A JSON object: field name to value; a missing key is an absent field. */
  type JsonObject = map<string, Json>

  /** Sentiment scores the server computes for the analysed text. */
  datatype Sentiment = Sentiment(polarity: real, subjectivity: real)

  /** The classifier's output: `classLabel` is the JSON `label` field; 1 means "classified fake". */
  datatype AnalysisResult = AnalysisResult(classLabel: int, probFake: real, sentiment: Sentiment)

  /** One corroborating source; each of the three fields may be missing. */
  datatype Corroboration = Corroboration(title: Option<string>, link: Option<string>, snippet: Option<string>)

  /** The body of a server reply: either an error message or a result. */
  datatype ReplyBody =
    | ErrorBody(error: string)
    | ResultBody(result: AnalysisResult, corroboration: seq<Corroboration>)

  /** An HTTP reply from the server: status code and JSON body. */
  datatype Reply = Reply(status: int, body: ReplyBody)

  /** A 2xx status, on which the HTTP client resolves instead of rejecting. */
  predicate IsSuccessStatus(status: int) {
    200 <= status < 300
  }

  /** The server answers a result with a 2xx status and an error with any other. */
  predicate WellFormed(reply: Reply) {
    reply.body.ResultBody? <==> IsSuccessStatus(reply.status)
  }
}
