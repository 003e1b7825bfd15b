/**
 * The fixed texts of the URL page's failure path. Each long text is built
 * from short literals so that facts about its characters stay cheap to
 * prove.
 */
module UrlMessages {

  /** The marker the page looks for in a server error. */
  const ExtractionMarker: string := "Could not extract text"

  /** What the page shows instead of an extraction error. */
  const Guidance: string := GuidanceFirst + GuidanceSecond + GuidanceThird

  const GuidanceFirst: string :=
    "We cannot currently " +
    "analyze this article. "

  const GuidanceSecond: string :=
    "The website may be " +
    "blocking automated " +
    "access or the content " +
    "structure is not supported. "

  const GuidanceThird: string :=
    "Please try copying " +
    "the article text and " +
    "using the Text Detection " +
    "feature instead."

  /** What the page shows when a failed call carries no server error. */
  const FailureMessage: string :=
    "Failed to analyze the URL. " +
    "Please check your connection " +
    "and try again."

  lemma GuidanceFirstLacksC()
    ensures 'C' !in GuidanceFirst
  {
  }

  lemma GuidanceSecondLacksC()
    ensures 'C' !in GuidanceSecond
  {
  }

  lemma GuidanceThirdLacksC()
    ensures 'C' !in GuidanceThird
  {
  }

  lemma FailureMessageLacksC()
    ensures 'C' !in FailureMessage
  {
  }
}
