/** The get-news route: it checks the request and the keys in a fixed order, searches
    Exa for the topic, reads the found articles out as numbered lines under a header,
    has that text spoken, and answers with the audio, the text and each article's title
    and url. */
module GetNews {
  import opened Wrappers
  import JsText
  import Base64
  import opened Exa

  /** One search result: the fields the route reads. */
  datatype Article = Article(title: Option<string>, url: Option<string>,
                             highlights: Option<seq<string>>, text: Option<string>)

  /** What the reply keeps of an article. */
  datatype ArticleRef = ArticleRef(title: Option<string>, url: Option<string>)

  /** An error reply with its status, or the news reply. */
  datatype Response =
    | Error(status: nat, error: string, details: Option<string>)
    | News(audioUrl: string, summary: string, articles: seq<ArticleRef>)

  const MissingTopic: string := "Missing topic parameter"
  const ExaKeyMissing: string := "Exa API key not configured"
  const ElevenLabsKeyMissing: string := "ElevenLabs API key not configured"
  const SearchFailed: string := "Failed to fetch news from Exa"
  const NoArticles: string := "No news articles found"
  const Untitled: string := "Untitled"
  const NumResults: nat := 3
  const TextLimit: nat := 200
  const LineSeparator: string := "\n\n"
  const LinePrefix: string := "Article "

  /** The search query for a topic. */
  function Query(topic: string): (q: string)
    ensures |q| == |"Latest "| + |topic| + |" news"|
    ensures "Latest " <= q
    ensures q[|q| - |" news"|..] == " news"
    ensures q[|"Latest "|..|q| - |" news"|] == topic
  {
    var q := "Latest " + topic + " news";
    assert q[|q| - |" news"|..] == " news";
    assert q[|"Latest "|..|q| - |" news"|] == topic;
    q
  }

  /** The opening of the spoken text: the topic inside a fixed sentence, then a blank
      line. */
  function Header(topic: string): (h: string)
    ensures |h| == |"Here are the latest "| + |topic| + |" news updates:"| + |LineSeparator|
    ensures "Here are the latest " <= h
    ensures h[|"Here are the latest "|..|"Here are the latest "| + |topic|] == topic
    ensures h[|"Here are the latest "| + |topic|..] == " news updates:" + LineSeparator
  {
    var h := "Here are the latest " + topic + " news updates:" + LineSeparator;
    assert h[|"Here are the latest "|..|"Here are the latest "| + |topic|] == topic;
    assert h[|"Here are the latest "| + |topic|..] == " news updates:" + LineSeparator;
    h
  }

  /** `highlights?.[0] || text?.slice(0, 200) || ''`: a non-empty first highlight,
      otherwise at most the first 200 characters of the text. */
  function Highlight(a: Article): (h: string)
    ensures a.highlights.Some? && |a.highlights.value| > 0 && a.highlights.value[0] != "" ==>
      h == a.highlights.value[0]
    ensures !(a.highlights.Some? && |a.highlights.value| > 0 && a.highlights.value[0] != "") ==>
      |h| <= TextLimit && (a.text.Some? ==> h <= a.text.value) && (a.text.None? ==> h == "")
  {
    if a.highlights.Some? && |a.highlights.value| > 0 && a.highlights.value[0] != "" then a.highlights.value[0]
    else if a.text.Some? && JsText.Prefix(a.text.value, TextLimit) != "" then JsText.Prefix(a.text.value, TextLimit)
    else ""
  }

  /** The three sources of a highlight, in order of preference. */
  lemma HighlightChoice(a: Article)
    ensures a.highlights.Some? && |a.highlights.value| > 0 && a.highlights.value[0] != "" ==>
      Highlight(a) == a.highlights.value[0]
    ensures !(a.highlights.Some? && |a.highlights.value| > 0 && a.highlights.value[0] != "") ==>
      Highlight(a) == if a.text.Some? then a.text.value[..if |a.text.value| < TextLimit then |a.text.value| else TextLimit]
                      else ""
    ensures |Highlight(a)| <= TextLimit || Highlight(a) == a.highlights.value[0]
  {
  }

  /** The line for the article at index `i`, numbered from 1. */
  function Line(i: nat, a: Article): (l: string)
    ensures LinePrefix <= l
  {
    LinePrefix + JsText.Decimal(i + 1) + ": " + JsText.OrElse(a.title, Untitled) + ". " + Highlight(a)
  }

  /** A line ends with the article's highlight. */
  lemma LineEndsWithHighlight(i: nat, a: Article)
    ensures |Line(i, a)| >= |Highlight(a)|
    ensures Line(i, a)[|Line(i, a)| - |Highlight(a)|..] == Highlight(a)
  {
    var l, h := Line(i, a), Highlight(a);
    var front := LinePrefix + JsText.Decimal(i + 1) + ": " + JsText.OrElse(a.title, Untitled) + ". ";
    assert l == front + h;
    assert l[|front|..] == h;
  }

  /** After the number, a line holds `: `, the title (`Untitled` when it is missing or
      empty), `. ` and then the highlight. */
  lemma LineTitle(i: nat, a: Article)
    ensures var k, t := |LinePrefix| + |JsText.Decimal(i + 1)|, JsText.OrElse(a.title, Untitled);
      && |Line(i, a)| == k + 2 + |t| + 2 + |Highlight(a)|
      && Line(i, a)[..k] == LinePrefix + JsText.Decimal(i + 1)
      && Line(i, a)[k..k + 2] == ": "
      && Line(i, a)[k + 2..k + 2 + |t|] == t
      && Line(i, a)[k + 2 + |t|..k + 4 + |t|] == ". "
      && Line(i, a)[k + 4 + |t|..] == Highlight(a)
    ensures a.title.None? || a.title == Some("") ==> JsText.OrElse(a.title, Untitled) == Untitled
    ensures a.title.Some? && a.title.value != "" ==> JsText.OrElse(a.title, Untitled) == a.title.value
  {
    var n, t, h := LinePrefix + JsText.Decimal(i + 1), JsText.OrElse(a.title, Untitled), Highlight(a);
    var l, k := Line(i, a), |n|;
    assert l == n + ": " + t + ". " + h;
    assert l[..k] == n;
    assert l[k..k + 2] == ": ";
    assert l[k + 2..k + 2 + |t|] == t;
    assert l[k + 2 + |t|..k + 4 + |t|] == ". ";
    assert l[k + 4 + |t|..] == h;
  }

  /** What follows a prefix is the rest. */
  lemma SuffixAfter(p: string, s: string)
    ensures (p + s)[|p|..] == s
  {
  }

  /** The number in a line reads back as the article's position counted from 1. */
  lemma LineNumber(i: nat, a: Article)
    ensures LinePrefix <= Line(i, a)
    ensures JsText.ParseInt(Line(i, a)[|LinePrefix|..]) == Some(i + 1)
  {
    var d, title, h := JsText.Decimal(i + 1), JsText.OrElse(a.title, Untitled), Highlight(a);
    var tail := ": " + title + ". " + h;
    assert Line(i, a) == LinePrefix + (d + tail);
    SuffixAfter(LinePrefix, d + tail);
    JsText.ParseIntDecimal(i + 1, tail);
  }

  /** The article lines, in the order of the results. */
  function Lines(articles: seq<Article>): (ls: seq<string>)
    ensures |ls| == |articles|
    ensures forall i :: 0 <= i < |ls| ==> ls[i] == Line(i, articles[i])
  {
    seq(|articles|, i requires 0 <= i < |articles| => Line(i, articles[i]))
  }

  /** The spoken text: the header, then the lines separated by blank lines. */
  function NewsSummary(topic: string, articles: seq<Article>): (s: string)
    ensures Header(topic) <= s
    ensures |articles| == 0 ==> s == Header(topic)
  {
    Header(topic) + JsText.Join(Lines(articles), LineSeparator)
  }

  /** One more article adds its own line, numbered after the others, after a blank
      line. */
  lemma NewsSummarySnoc(topic: string, articles: seq<Article>, a: Article)
    requires |articles| > 0
    ensures NewsSummary(topic, articles + [a]) ==
            NewsSummary(topic, articles) + LineSeparator + Line(|articles|, a)
  {
    var ls, x := Lines(articles), Line(|articles|, a);
    var j := JsText.Join(ls, LineSeparator);
    LinesSnoc(articles, a);
    JsText.JoinSnoc(ls, x, LineSeparator);
    assert NewsSummary(topic, articles + [a]) == Header(topic) + (j + LineSeparator + x);
    Regroup(Header(topic), j, LineSeparator, x);
  }

  /** Concatenation regrouped. */
  lemma Regroup(h: string, j: string, sep: string, x: string)
    ensures h + (j + sep + x) == h + j + sep + x
  {
  }

  /** One more article adds its own line at the end. */
  lemma LinesSnoc(articles: seq<Article>, a: Article)
    ensures Lines(articles + [a]) == Lines(articles) + [Line(|articles|, a)]
  {
    var all := articles + [a];
    var ls, ls' := Lines(all), Lines(articles) + [Line(|articles|, a)];
    assert |ls| == |ls'|;
    forall i | 0 <= i < |articles| ensures ls[i] == ls'[i] {
      assert all[i] == articles[i];
    }
    assert all[|articles|] == a;
    assert ls[|articles|] == ls'[|articles|];
  }

  /** A single article gives the header followed by its line. */
  lemma NewsSummaryOne(topic: string, a: Article)
    ensures NewsSummary(topic, [a]) == Header(topic) + Line(0, a)
  {
    assert Lines([a]) == [Line(0, a)];
  }

  /** The length of the summary: every line, and one separator between each two. */
  lemma NewsSummaryLength(topic: string, articles: seq<Article>)
    requires |articles| > 0
    ensures |NewsSummary(topic, articles)| ==
            |Header(topic)| + JsText.TotalLength(Lines(articles)) + (|articles| - 1) * |LineSeparator|
  {
    JsText.JoinLength(Lines(articles), LineSeparator);
  }

  /** The articles in the reply: the same count and order, only title and url kept. */
  function References(articles: seq<Article>): (refs: seq<ArticleRef>)
    ensures |refs| == |articles|
    ensures forall i :: 0 <= i < |refs| ==> refs[i].title == articles[i].title && refs[i].url == articles[i].url
  {
    seq(|articles|, i requires 0 <= i < |articles| => ArticleRef(articles[i].title, articles[i].url))
  }

  /** The route, given what each vendor call gives back. */
  function GetNews(body: Body<Option<string>>, env: Env, search: Outcome<Option<seq<Article>>>,
                   speech: Outcome<seq<Base64.byte>>): (out: Handled<Response>)
    ensures body.NoBody? ==> out == Handled(Error(400, MissingBody, None), [])
    ensures body.Unparsable? ==> out == Handled(Error(500, UnexpectedError, Some(body.message)), [])
    ensures body.Parsed? && !JsText.Truthy(body.field) ==> out == Handled(Error(400, MissingTopic, None), [])
    ensures body.Parsed? && JsText.Truthy(body.field) && !JsText.Truthy(env.exaKey) ==>
      out == Handled(Error(500, ExaKeyMissing, None), [])
    ensures body.Parsed? && JsText.Truthy(body.field) && JsText.Truthy(env.exaKey) &&
            !JsText.Truthy(env.elevenLabsKey) ==>
      out == Handled(Error(500, ElevenLabsKeyMissing, None), [])
    ensures out.calls != [] <==> Accepted(body, env)
    ensures out.calls != [] ==> out.calls[0] == Search(Query(body.field.value), NumResults) && |out.calls| <= 2
  {
    match body
    case NoBody => Handled(Error(400, MissingBody, None), [])
    case Unparsable(message) => Handled(Error(500, UnexpectedError, Some(message)), [])
    case Parsed(topic) =>
      if !JsText.Truthy(topic) then Handled(Error(400, MissingTopic, None), [])
      else if !JsText.Truthy(env.exaKey) then Handled(Error(500, ExaKeyMissing, None), [])
      else if !JsText.Truthy(env.elevenLabsKey) then Handled(Error(500, ElevenLabsKeyMissing, None), [])
      else
        var find := Search(Query(topic.value), NumResults);
        match search
        case Failed(details) => Handled(Error(500, SearchFailed, Some(details)), [find])
        case Answered(results) =>
          var articles := results.GetOr([]);
          if |articles| == 0 then Handled(Error(404, NoArticles, None), [find])
          else
            var summary := NewsSummary(topic.value, articles);
            var speak := Speech(VoiceId, summary);
            match speech
            case Failed(details) => Handled(Error(500, SpeechFailed, Some(details)), [find, speak])
            case Answered(audio) =>
              Handled(News(AudioUrl(audio), summary, References(articles)), [find, speak])
  }

  /** A failed search, or one with no results, ends the route after that one call. */
  lemma GetNewsNoArticles(topic: string, env: Env, search: Outcome<Option<seq<Article>>>,
                          speech: Outcome<seq<Base64.byte>>)
    requires topic != "" && KeysSet(env)
    requires search.Failed? || search.data.None? || search.data == Some([])
    ensures var out := GetNews(Parsed(Some(topic)), env, search, speech);
      out.calls == [Search(Query(topic), NumResults)] &&
      out.response == if search.Failed? then Error(500, SearchFailed, Some(search.details))
                      else Error(404, NoArticles, None)
  {
  }

  /** With articles, their summary is spoken; on success the reply carries that audio,
      the summary and the article references. */
  lemma GetNewsSpeaks(topic: string, env: Env, articles: seq<Article>, speech: Outcome<seq<Base64.byte>>)
    requires topic != "" && KeysSet(env) && |articles| > 0
    ensures var out := GetNews(Parsed(Some(topic)), env, Answered(Some(articles)), speech);
      && out.calls == [Search(Query(topic), NumResults), Speech(VoiceId, NewsSummary(topic, articles))]
      && (speech.Failed? ==> out.response == Error(500, SpeechFailed, Some(speech.details)))
      && (speech.Answered? ==>
            out.response == News(AudioUrl(speech.data), NewsSummary(topic, articles), References(articles)))
  {
  }
}
