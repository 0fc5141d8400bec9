/**
 * Reading out the news (`get_news`): the headline service's answer is
 * checked, at most the first five titles are kept, and one utterance is
 * spoken: the numbered headlines, or one of three apologies.
 */
module News {
  import opened Wrappers
  import opened Text
  import opened Services

  /** How many articles are read out at most. */
  const TopCount := 5

  const NewsIntro := "Here are the top 5 news headlines. "
  const NoArticles := "Sorry, I couldn't find any news articles."
  const NoNews := "Sorry, I couldn't fetch news."
  const NewsFailure := "An error occurred while fetching news."

  const EntryLead := "Headline "

  /** The spoken entry of the headline numbered `idx`. */
  function HeadlineEntry(idx: nat, headline: string): string {
    EntryLead + NatToString(idx) + ": " + headline + ". "
  }

  /** An entry is `Headline `, the decimal digits of its number, `: `, and the headline verbatim. */
  lemma {:induction false} EntryReadsBack(idx: nat, headline: string)
    ensures var entry := HeadlineEntry(idx, headline);
      |entry| == |EntryLead| + |NatToString(idx)| + 2 + |headline| + 2 &&
      StartsWith(entry, EntryLead) &&
      entry[|EntryLead|..|EntryLead| + |NatToString(idx)|] == NatToString(idx) &&
      DecimalValue(entry[|EntryLead|..|EntryLead| + |NatToString(idx)|]) == idx &&
      entry[|EntryLead| + |NatToString(idx)|..|EntryLead| + |NatToString(idx)| + 2] == ": " &&
      entry[|entry| - |headline| - 2..] == headline + ". "
  {
    var number := NatToString(idx);
    var entry := HeadlineEntry(idx, headline);
    assert entry == EntryLead + (number + (": " + (headline + ". ")));
    DecimalRoundTrip(idx);
  }

  /** The entries of `headlines`, numbered from `first` on. */
  function HeadlinesBody(headlines: seq<string>, first: nat): string
    decreases |headlines|
  {
    if headlines == [] then ""
    else HeadlineEntry(first, headlines[0]) + HeadlinesBody(headlines[1..], first + 1)
  }

  /** The utterance that reads out `headlines`, numbered from 1, after the fixed introduction. */
  function NewsUtterance(headlines: seq<string>): (utterance: string)
    ensures StartsWith(utterance, NewsIntro)
    ensures |utterance| == |NewsIntro| <==> headlines == []
  {
    NewsIntro + HeadlinesBody(headlines, 1)
  }

  /** Appending a headline appends its entry, numbered after the others. */
  lemma {:induction false} BodySnoc(headlines: seq<string>, h: string, first: nat)
    ensures HeadlinesBody(headlines + [h], first)
         == HeadlinesBody(headlines, first) + HeadlineEntry(first + |headlines|, h)
    decreases |headlines|
  {
    if headlines == [] {
      assert [] + [h] == [h];
    } else {
      assert (headlines + [h])[1..] == headlines[1..] + [h];
      BodySnoc(headlines[1..], h, first + 1);
    }
  }

  /** Reading out two lists one after the other numbers the second after the first. */
  lemma {:induction false} BodyAppend(a: seq<string>, b: seq<string>, first: nat)
    ensures HeadlinesBody(a + b, first) == HeadlinesBody(a, first) + HeadlinesBody(b, first + |a|)
    decreases |a|
  {
    if a == [] {
      assert a + b == b;
    } else {
      assert (a + b)[1..] == a[1..] + b;
      BodyAppend(a[1..], b, first + 1);
    }
  }

  /** The headline at position `k` is read out as entry `first + k`, after the earlier ones and before the later ones. */
  lemma {:induction false} BodySplit(headlines: seq<string>, k: nat, first: nat)
    requires k < |headlines|
    ensures HeadlinesBody(headlines, first)
         == HeadlinesBody(headlines[..k], first) + HeadlineEntry(first + k, headlines[k])
            + HeadlinesBody(headlines[k + 1..], first + k + 1)
  {
    var before, rest := headlines[..k], headlines[k..];
    assert headlines == before + rest;
    BodyAppend(before, rest, first);
    assert rest[1..] == headlines[k + 1..];
  }

  /** The loop of `get_news` that builds the text, one `Headline i: ...` entry per headline. */
  method BuildNewsText(headlines: seq<string>) returns (newsText: string)
    ensures newsText == NewsUtterance(headlines)
  {
    newsText := NewsIntro;
    for i := 0 to |headlines|
      invariant newsText == NewsIntro + HeadlinesBody(headlines[..i], 1)
    {
      var idx := i + 1;
      newsText := newsText + HeadlineEntry(idx, headlines[i]);
      BodySnoc(headlines[..i], headlines[i], 1);
      assert headlines[..i + 1] == headlines[..i] + [headlines[i]];
    }
    assert headlines[..|headlines|] == headlines;
  }

  /** `[article["title"] for article in articles]`: `None` when some article has no title. */
  function Titles(articles: seq<Article>): (r: Option<seq<string>>)
    ensures r.Some? <==> forall k :: 0 <= k < |articles| ==> articles[k].title.Some?
    ensures r.Some? ==> |r.value| == |articles|
    ensures r.Some? ==> forall k :: 0 <= k < |articles| ==> r.value[k] == articles[k].title.value
    decreases |articles|
  {
    if articles == [] then Some([])
    else match (articles[0].title, Titles(articles[1..]))
      case (Some(t), Some(rest)) => Some([t] + rest)
      case _ => None
  }

  /** `articles[:5]`: the first five articles, or all of them when there are fewer. */
  function TopArticles(articles: seq<Article>): (top: seq<Article>)
    ensures |top| == if |articles| < TopCount then |articles| else TopCount
    ensures top == articles[..|top|]
  {
    if |articles| < TopCount then articles else articles[..TopCount]
  }

  /** The one utterance `get_news` speaks for the service's answer `reply`. */
  function NewsSpeech(reply: NewsReply): (utterance: string)
    ensures utterance == NoNews <==>
      reply.NewsPayload? && reply.status.Some? && !(reply.status.value == "ok" && reply.articles.Some?)
    ensures utterance == NoArticles <==>
      reply.NewsPayload? && reply.status == Some("ok") && reply.articles == Some([])
    ensures utterance == NewsFailure <==>
      reply.FetchFailed? || (reply.NewsPayload? && reply.status.None?) ||
      (reply.NewsPayload? && reply.status == Some("ok") && reply.articles.Some? &&
       Titles(TopArticles(reply.articles.value)).None?)
  {
    match reply
    case FetchFailed => NewsFailure
    case NewsPayload(status, articles) =>
      if status.None? then NewsFailure
      else if status.value == "ok" && articles.Some? then
        var top := TopArticles(articles.value);
        if top == [] then NoArticles
        else match Titles(top)
          case None => NewsFailure
          case Some(headlines) =>
            ApologiesAreNotHeadlines(headlines);
            NewsUtterance(headlines)
      else NoNews
  }

  /** A read-out of headlines is none of the apologies, and the apologies differ. */
  lemma ApologiesAreNotHeadlines(headlines: seq<string>)
    ensures NewsUtterance(headlines) !in {NoNews, NoArticles, NewsFailure}
    ensures NoNews != NoArticles && NoNews != NewsFailure && NoArticles != NewsFailure
  {
    var u := NewsUtterance(headlines);
    assert u[0] == NewsIntro[0] == 'H';
    assert |NoNews| != |NoArticles|;
    assert NoNews[0] != NewsFailure[0] && NoArticles[0] != NewsFailure[0];
  }

  /** With five or more titled articles, exactly the first five are read out, in order, numbered 1 to 5. */
  lemma {:induction false} FiveHeadlines(articles: seq<Article>)
    requires |articles| >= TopCount
    requires forall k :: 0 <= k < TopCount ==> articles[k].title.Some?
    ensures NewsSpeech(NewsPayload(Some("ok"), Some(articles)))
         == NewsIntro
            + HeadlineEntry(1, articles[0].title.value)
            + HeadlineEntry(2, articles[1].title.value)
            + HeadlineEntry(3, articles[2].title.value)
            + HeadlineEntry(4, articles[3].title.value)
            + HeadlineEntry(5, articles[4].title.value)
  {
    var hs := Titles(TopArticles(articles)).value;
    assert |hs| == 5 && forall k :: 0 <= k < 5 ==> hs[k] == articles[k].title.value;
    assert NewsSpeech(NewsPayload(Some("ok"), Some(articles))) == NewsUtterance(hs);
    UtteranceOfFive(hs);
  }

  /** Five headlines are read out as the introduction and five entries numbered 1 to 5. */
  lemma {:induction false} UtteranceOfFive(hs: seq<string>)
    requires |hs| == 5
    ensures NewsUtterance(hs)
         == NewsIntro + HeadlineEntry(1, hs[0]) + HeadlineEntry(2, hs[1]) + HeadlineEntry(3, hs[2])
            + HeadlineEntry(4, hs[3]) + HeadlineEntry(5, hs[4])
  {
    assert NewsUtterance(hs[..0]) == NewsIntro by {
      assert hs[..0] == [];
    }
    UtterancePrefix(hs, 0);
    UtterancePrefix(hs, 1);
    UtterancePrefix(hs, 2);
    UtterancePrefix(hs, 3);
    UtterancePrefix(hs, 4);
    assert hs[..5] == hs;
  }

  /** Reading out one more headline appends its entry, numbered after the others. */
  lemma {:induction false} UtterancePrefix(headlines: seq<string>, k: nat)
    requires k < |headlines|
    ensures NewsUtterance(headlines[..k + 1])
         == NewsUtterance(headlines[..k]) + HeadlineEntry(k + 1, headlines[k])
  {
    assert headlines[..k + 1] == headlines[..k] + [headlines[k]];
    BodySnoc(headlines[..k], headlines[k], 1);
    var body, entry := HeadlinesBody(headlines[..k], 1), HeadlineEntry(k + 1, headlines[k]);
    assert NewsIntro + (body + entry) == NewsIntro + body + entry;
  }

  /** With one to four titled articles, all of them are read out, under the same fixed introduction. */
  lemma {:induction false} FewerHeadlines(articles: seq<Article>)
    requires 0 < |articles| < TopCount
    requires forall k :: 0 <= k < |articles| ==> articles[k].title.Some?
    ensures exists headlines ::
      |headlines| == |articles| &&
      (forall k :: 0 <= k < |articles| ==> headlines[k] == articles[k].title.value) &&
      NewsSpeech(NewsPayload(Some("ok"), Some(articles))) == NewsIntro + HeadlinesBody(headlines, 1)
  {
    var hs := Titles(TopArticles(articles)).value;
    assert NewsSpeech(NewsPayload(Some("ok"), Some(articles))) == NewsIntro + HeadlinesBody(hs, 1);
  }
}
