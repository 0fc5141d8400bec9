/**
 * What the assistant does to the world, and what the world answers.
 *
 * Every external action (speaking, opening a browser, calling the video
 * search, the headline service or the language model) is recorded as an
 * `Effect` in an output trace. The answers of the three services are not
 * computed: they are supplied with each recognised utterance as `Replies`.
 */
module Services {
  import opened Wrappers

  /** One observable action of the assistant. */
  datatype Effect =
    | Speak(text: string)          // `speak(text)`: text-to-speech, blocking until spoken
    | OpenUrl(url: string)         // `webbrowser.open(url)`
    | SearchSong(query: string)    // `Search(query).results`, the video search
    | FetchNews                    // `requests.get` of the top-headlines endpoint
    | AskAI(prompt: string)        // `model.generate_content(prompt)`

  /** A service request (as opposed to speech or a browser navigation). */
  predicate IsRequest(e: Effect) {
    e.SearchSong? || e.FetchNews? || e.AskAI?
  }

  /** The service requests of a trace, in order. */
  function Requests(effects: seq<Effect>): (r: seq<Effect>)
    ensures |r| <= |effects|
    ensures forall k :: 0 <= k < |r| ==> IsRequest(r[k])
    ensures forall e :: e in r <==> e in effects && IsRequest(e)
    decreases |effects|
  {
    if effects == [] then []
    else (if IsRequest(effects[0]) then [effects[0]] else []) + Requests(effects[1..])
  }

  /** A trace of speech and navigations only holds no request. */
  lemma NoRequests(effects: seq<Effect>)
    requires forall k :: 0 <= k < |effects| ==> !IsRequest(effects[k])
    ensures Requests(effects) == []
  {
  }

  /**
   * A single effect contributes itself when it is a request and nothing
   * otherwise; with `RequestsAppend` this fixes the order and the number of
   * the requests of any trace.
   */
  lemma RequestsOfOne(e: Effect)
    ensures Requests([e]) == if IsRequest(e) then [e] else []
  {
    assert [e][1..] == [];
  }

  /** Requests of a concatenation are the concatenation of the requests. */
  lemma {:induction false} RequestsAppend(a: seq<Effect>, b: seq<Effect>)
    ensures Requests(a + b) == Requests(a) + Requests(b)
    decreases |a|
  {
    if a == [] {
      assert a + b == b;
    } else {
      assert (a + b)[1..] == a[1..] + b;
      RequestsAppend(a[1..], b);
    }
  }

  /** One article object of the headline service's JSON; `title` is `None` when the key is missing. */
  datatype Article = Article(title: Option<string>)

  /** The decoded answer of the headline service. */
  datatype NewsReply =
    | FetchFailed    // the request or the JSON decoding raised
    | NewsPayload(status: Option<string>, articles: Option<seq<Article>>)
      // `None` marks a missing "status" or "articles" key

  /** The answer of the video search. */
  datatype SearchReply =
    | SearchFailed                          // the search raised
    | SearchResults(videoIds: seq<string>)  // the ids of the results, in order

  /** The answer of the language model. */
  datatype AnswerReply =
    | AnswerFailed                // the call or reading `.text` raised
    | Answer(text: string)

  /** What each service would answer to the request the current command makes. */
  datatype Replies = Replies(news: NewsReply, videos: SearchReply, answer: AnswerReply)
}
