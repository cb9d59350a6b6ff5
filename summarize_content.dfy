/** The summarize-content route: it checks the request and the keys in a fixed order,
    fetches the page's text from Exa, cuts it to a 1000-character summary, has the summary
    spoken, and answers with the audio as a data URL. Each early return carries its own
    status code. */
module SummarizeContent {
  import opened Wrappers
  import JsText
  import Base64
  import opened Exa

  /** The first Exa result: the fields the route reads. */
  datatype Content = Content(title: Option<string>, url: Option<string>, text: Option<string>)

  /** An error reply with its status, or the summary reply. */
  datatype Response =
    | Error(status: nat, error: string, details: Option<string>)
    | Summary(audioUrl: string, summary: string, title: string, url: Option<string>, fullText: string)

  const MissingUrl: string := "Missing URL parameter"
  const ExaKeyMissing: string :=
    "Exa API key not configured. Please set EXA_API_KEY in your environment variables."
  const ElevenLabsKeyMissing: string :=
    "ElevenLabs API key not configured. Please set ELEVEN_LABS_API_KEY in your environment variables."
  const ContentsFailed: string := "Failed to fetch content from Exa"
  const NoContent: string := "No content found for the provided URL"
  const NoText: string := "No text content found at the provided URL"
  const UntitledContent: string := "Untitled Content"
  const SummaryLimit: nat := 1000
  const Ellipsis: string := "..."

  /** `Title: <title>`, a blank line, and `Summary: `. */
  function SummaryHeader(title: string): (h: string)
    ensures |h| == |"Title: "| + |title| + |"\n\nSummary: "|
    ensures "Title: " <= h
    ensures h[|"Title: "|..|"Title: "| + |title|] == title
    ensures h[|"Title: "| + |title|..] == "\n\nSummary: "
  {
    var h := "Title: " + title + "\n\nSummary: ";
    assert h[|"Title: "|..|"Title: "| + |title|] == title;
    assert h[|"Title: "| + |title|..] == "\n\nSummary: ";
    h
  }

  /** The summary: the header, the first 1000 characters of the text, and `...` when
      the text was longer. */
  function SummaryOf(title: string, text: string): (s: string)
    ensures SummaryHeader(title) <= s
    ensures |s| == |SummaryHeader(title)| + if |text| > SummaryLimit then SummaryLimit + |Ellipsis| else |text|
  {
    SummaryHeader(title) + JsText.Prefix(text, SummaryLimit) + (if |text| > SummaryLimit then Ellipsis else "")
  }

  /** A text of at most 1000 characters is carried whole, with no ellipsis. */
  lemma SummaryShort(title: string, text: string)
    requires |text| <= SummaryLimit
    ensures SummaryOf(title, text) == SummaryHeader(title) + text
  {
    assert JsText.Prefix(text, SummaryLimit) == text;
  }

  /** A longer text is cut to its first 1000 characters, followed by `...`. */
  lemma SummaryLong(title: string, text: string)
    requires |text| > SummaryLimit
    ensures var s, h := SummaryOf(title, text), |SummaryHeader(title)|;
      s[h..h + SummaryLimit] == text[..SummaryLimit] && s[h + SummaryLimit..] == Ellipsis
  {
    var p := JsText.Prefix(text, SummaryLimit);
    assert p == text[..SummaryLimit];
    var s, h := SummaryOf(title, text), |SummaryHeader(title)|;
    assert s == SummaryHeader(title) + p + Ellipsis;
    assert s[h..h + SummaryLimit] == p;
    assert s[h + SummaryLimit..] == Ellipsis;
  }

  /** The route, given what each vendor call gives back. */
  function Summarize(body: Body<Option<string>>, env: Env, contents: Outcome<Option<seq<Content>>>,
                     speech: Outcome<seq<Base64.byte>>): (out: Handled<Response>)
    ensures body.NoBody? ==> out == Handled(Error(400, MissingBody, None), [])
    ensures body.Unparsable? ==> out == Handled(Error(500, UnexpectedError, Some(body.message)), [])
    ensures body.Parsed? && !JsText.Truthy(body.field) ==> out == Handled(Error(400, MissingUrl, None), [])
    ensures body.Parsed? && JsText.Truthy(body.field) && !JsText.Truthy(env.exaKey) ==>
      out == Handled(Error(500, ExaKeyMissing, None), [])
    ensures body.Parsed? && JsText.Truthy(body.field) && JsText.Truthy(env.exaKey) &&
            !JsText.Truthy(env.elevenLabsKey) ==>
      out == Handled(Error(500, ElevenLabsKeyMissing, None), [])
    ensures out.calls != [] <==> Accepted(body, env)
    ensures out.calls != [] ==> out.calls[0] == Contents([body.field.value]) && |out.calls| <= 2
  {
    match body
    case NoBody => Handled(Error(400, MissingBody, None), [])
    case Unparsable(message) => Handled(Error(500, UnexpectedError, Some(message)), [])
    case Parsed(url) =>
      if !JsText.Truthy(url) then Handled(Error(400, MissingUrl, None), [])
      else if !JsText.Truthy(env.exaKey) then Handled(Error(500, ExaKeyMissing, None), [])
      else if !JsText.Truthy(env.elevenLabsKey) then Handled(Error(500, ElevenLabsKeyMissing, None), [])
      else
        var fetch := Contents([url.value]);
        match contents
        case Failed(details) => Handled(Error(500, ContentsFailed, Some(details)), [fetch])
        case Answered(results) =>
          var rs := results.GetOr([]);
          if |rs| == 0 then Handled(Error(404, NoContent, None), [fetch])
          else
            var content := rs[0];
            var title := JsText.OrElse(content.title, UntitledContent);
            var text := content.text.GetOr("");
            if JsText.Trim(text) == "" then Handled(Error(404, NoText, None), [fetch])
            else
              var summary := SummaryOf(title, text);
              var speak := Speech(VoiceId, summary);
              match speech
              case Failed(details) => Handled(Error(500, SpeechFailed, Some(details)), [fetch, speak])
              case Answered(audio) =>
                Handled(Summary(AudioUrl(audio), summary, title, content.url, text), [fetch, speak])
  }

  /** A failed fetch, or one with no results, ends the route after that one call. */
  lemma SummarizeNoContent(url: string, env: Env, contents: Outcome<Option<seq<Content>>>,
                           speech: Outcome<seq<Base64.byte>>)
    requires url != "" && KeysSet(env)
    requires contents.Failed? || contents.data.None? || contents.data == Some([])
    ensures var out := Summarize(Parsed(Some(url)), env, contents, speech);
      out.calls == [Contents([url])] &&
      out.response == if contents.Failed? then Error(500, ContentsFailed, Some(contents.details))
                      else Error(404, NoContent, None)
  {
  }

  /** A first result whose text is missing or only white space is a 404, with no speech
      requested. */
  lemma SummarizeNoText(url: string, env: Env, rs: seq<Content>, speech: Outcome<seq<Base64.byte>>)
    requires url != "" && KeysSet(env) && |rs| > 0
    requires rs[0].text.None? || JsText.AllWhiteSpace(rs[0].text.value)
    ensures Summarize(Parsed(Some(url)), env, Answered(Some(rs)), speech) ==
            Handled(Error(404, NoText, None), [Contents([url])])
  {
  }

  /** With usable text the summary of the first result is spoken; on success the reply
      carries that audio, the summary, the title (defaulted), the result's url and the
      whole untrimmed text. */
  lemma SummarizeSpeaks(url: string, env: Env, rs: seq<Content>, speech: Outcome<seq<Base64.byte>>)
    requires url != "" && KeysSet(env) && |rs| > 0
    requires rs[0].text.Some? && !JsText.AllWhiteSpace(rs[0].text.value)
    ensures var title := JsText.OrElse(rs[0].title, UntitledContent);
      var summary := SummaryOf(title, rs[0].text.value);
      var out := Summarize(Parsed(Some(url)), env, Answered(Some(rs)), speech);
      && out.calls == [Contents([url]), Speech(VoiceId, summary)]
      && (speech.Failed? ==> out.response == Error(500, SpeechFailed, Some(speech.details)))
      && (speech.Answered? ==>
            out.response == Summary(AudioUrl(speech.data), summary, title, rs[0].url, rs[0].text.value))
  {
  }

  /** A missing or empty title is reported as `Untitled Content`; any other is kept. */
  lemma SummarizeTitle(url: string, env: Env, c: Content, rest: seq<Content>, audio: seq<Base64.byte>)
    requires url != "" && KeysSet(env)
    requires c.text.Some? && !JsText.AllWhiteSpace(c.text.value)
    ensures var r := Summarize(Parsed(Some(url)), env, Answered(Some([c] + rest)), Answered(audio)).response;
      r.Summary? && r.title == (if c.title.None? || c.title.value == "" then UntitledContent else c.title.value)
  {
    SummarizeSpeaks(url, env, [c] + rest, Answered(audio));
  }
}
