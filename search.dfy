/**
 * The server's corroboration search: the search engine is asked for up to
 * five results for the query, and each raw result is normalised to a title,
 * a link and a snippet. An empty query is not searched, and a failed search
 * yields no sources.
 */
module Search {
  import opened Wrappers
  import opened Protocol

  /** How many results the search engine is asked for. */
  const MaxResults: nat := 5

  /** One raw search result: field name to string value. */
  type RawResult = map<string, string>

  /** What the search engine did: produced its results, or raised. */
  datatype SearchReply = Found(results: seq<RawResult>) | Failed

  /** `r.get(key)`. */
  function Get(r: RawResult, key: string): (v: Option<string>)
    ensures v.Some? <==> key in r
    ensures v.Some? ==> v.value == r[key]
  {
    if key in r then Some(r[key]) else None
  }

  /**
   * One normalised entry: the title and the body become title and snippet;
   * the link is the `href` field when it is a non-empty string, and
   * otherwise whatever the `url` field holds, possibly nothing.
   */
  function Normalize(r: RawResult): (entry: Corroboration)
    ensures entry.title == Get(r, "title") && entry.snippet == Get(r, "body")
    ensures "href" in r && r["href"] != "" ==> entry.link == Some(r["href"])
    ensures !("href" in r && r["href"] != "") ==> entry.link == Get(r, "url")
  {
    var href := Get(r, "href");
    Corroboration(Get(r, "title"), if href.Some? && href.value != "" then href else Get(r, "url"), Get(r, "body"))
  }

  /** `web_corroborate` as a value: the normalised results, in order, or none. */
  function Corroborate(query: string, search: (string, nat) -> SearchReply): (entries: seq<Corroboration>)
    ensures query == "" ==> entries == []
    ensures query != "" && search(query, MaxResults).Failed? ==> entries == []
    ensures query != "" && search(query, MaxResults).Found? ==>
              var results := search(query, MaxResults).results;
              |entries| == |results| && forall k :: 0 <= k < |results| ==> entries[k] == Normalize(results[k])
  {
    if query == "" then
      []
    else
      match search(query, MaxResults)
      case Failed => []
      case Found(results) => seq(|results|, k requires 0 <= k < |results| => Normalize(results[k]))
  }

  /**
   * `web_corroborate`: the empty-query check, the search, and the loop that
   * appends one normalised entry per result.
   */
  method WebCorroborate(query: string, search: (string, nat) -> SearchReply) returns (output: seq<Corroboration>)
    ensures output == Corroborate(query, search)
  {
    if query == "" {
      return [];
    }
    var reply := search(query, MaxResults);
    if reply.Failed? {
      return [];
    }
    var results := reply.results;
    output := [];
    for k := 0 to |results|
      invariant |output| == k
      invariant forall j :: 0 <= j < k ==> output[j] == Normalize(results[j])
    {
      output := output + [Normalize(results[k])];
    }
  }

  /** An empty query is answered without consulting the search engine. */
  lemma EmptyQueryIgnoresSearch(search1: (string, nat) -> SearchReply, search2: (string, nat) -> SearchReply)
    ensures Corroborate("", search1) == Corroborate("", search2)
  {
  }

  /** A non-empty `href` always wins over `url`; an empty or missing one falls back to it. */
  lemma LinkFallback(title: string, href: string, url: string)
    ensures Normalize(map["title" := title, "href" := href, "url" := url]).link ==
            Some(if href != "" then href else url)
    ensures Normalize(map["title" := title, "url" := url]).link == Some(url)
    ensures Normalize(map["title" := title]).link == None
  {
  }
}
