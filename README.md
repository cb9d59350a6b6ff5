# Character game, chat, Exa and voices routes — a Dafny model

This project models the parts of the ElevenLabs demo apps that hold logic of their own.
Every vendor call (speech-to-text, chat completion, text-to-speech, Exa search and
contents, the ElevenLabs voice list) is an outcome passed in as a parameter. Each route
reports the calls it made, so "no upstream call" is a statement about that list.

- **The character game** (`Game.VoiceGame`). This class holds the component's state:
  - the roster;
  - the selection;
  - the listening, processing and editor flags;
  - the draft being edited;
  - whether a recorder exists, and the recorded chunks;
  - the roster as of the last change of selection, and the selection and roster that
    the running recorder's stop handler is bound to.

  Its methods are the component's handlers: select, start, chunk, stop, the
  transcribe → chat → speak pipeline, open an edit or a new draft, the draft field
  setters, save, delete and cancel. Each method states its whole new state. A
  field-granular `modifies` frame says which fields it may touch. The roster transforms
  the handlers pass to `setCharacters` are pure functions in `Roster`. The lemmas there
  say what is appended, replaced or removed, and what stays as it was.
- **The chat route** (`ChatRoute`). The route first checks the input. It then builds the
  message list: the system prompt, at most the last six transcript entries, and then the
  new message. When the model fails, it looks up a fallback line; when the model gives
  no content, it uses a default line.
- **The two Exa routes** (`SummarizeContent`, `GetNews`). Each walks an ordered chain of
  early returns that ends in status 400, 404 or 500:
  - summarize-content builds a 1000-character summary with a `...` marker;
  - get-news builds numbered article lines joined by blank lines, and a projection of
    the articles.

  Both share `Exa`: the audio data URL, and the call and outcome types.
- **The voices route** (`VoicesRoute`). It checks the key, then projects the vendor
  voices, with `Unknown` as the default gender and accent.
- **Supporting modules**:
  - `JsText` states the JavaScript string rules the code relies on: `trim` and its
    white-space set, `slice(0, n)`, `join`, number-to-decimal formatting, `parseInt`
    without a radix and `|| 0`.
  - `Base64` is the encoding of section 4 of RFC 4648 that `Buffer#toString('base64')`
    performs, with a decoder proved to undo it.

Modelling choices:
- JavaScript `undefined`/`null` is `Option.None`.
- A string's truthiness is `JsText.Truthy`: it is present and not empty.
- Lengths and `slice` count Dafny characters, where JavaScript counts UTF-16 code units.
- Clock readings (`Date.now()`) and random placements (`Math.random()`) are parameters.
- Screen positions are `real`.

In these places the model follows the code:
- `startListening` has no guard against a recording that is already active; only the UI
  hides the button.
- Position inputs are coerced with `parseInt(value) || 0` and are not clamped to any
  bounds.
- Saving an edit replaces the whole record with the draft, the transcript included. The
  transcript in the draft is the one the editor copied.
- A new character's id is `character_` followed by the clock reading. It is fresh only
  when the clock has moved on (`Game.NewIdFresh`).
- `processAudio` without a selection returns before the processing flag is raised.

## Model

| member | source | states |
|---|---|---|
| JsText.Trim | AI-character-game/app/components/VoiceGame.tsx:123 | the trimmed text is empty exactly when the input is all white space, and otherwise starts and ends with a non-white-space character |
| JsText.TrimIsSlice | AI-character-game/app/components/VoiceGame.tsx:123 | the trimmed text is the part of the input that starts right after its leading white space |
| JsText.Prefix | exa-elevenlabs/app/api/summarize-content/route.ts:95 | `slice(0, n)` is a prefix of the text whose length is the smaller of `n` and the text's length |
| JsText.JoinSnoc | exa-elevenlabs/app/api/get-news/route.ts:88-93 | joining one more part appends the separator and then that part |
| JsText.JoinLength | exa-elevenlabs/app/api/get-news/route.ts:88-93 | a join is as long as all its parts plus one separator between each two |
| JsText.Decimal | exa-elevenlabs/app/api/get-news/route.ts:92 | a number's decimal form is non-empty, has only digits, has no leading zero, and is one digit exactly for numbers below 10 |
| JsText.DecimalValue | AI-character-game/app/components/VoiceGame.tsx:196 | the decimal form of a number reads back as that number |
| JsText.ParseInt | AI-character-game/app/components/VoiceGame.tsx:425 | `parseInt` of an empty or all-white-space field is NaN |
| JsText.ParseIntDecimal | AI-character-game/app/components/VoiceGame.tsx:425 | `parseInt` of a decimal followed by a tail that starts with neither a digit nor `x`/`X` gives the number (the `x`/`X` exclusion matters only after a lone `0`, where it would start a hex prefix) |
| JsText.ParseIntNegative | AI-character-game/app/components/VoiceGame.tsx:425 | `parseInt` of a minus sign and a decimal gives the negated number |
| JsText.ParseIntSkipsWhiteSpace | AI-character-game/app/components/VoiceGame.tsx:425 | leading white space does not change what `parseInt` reads |
| JsText.ParseIntEmpty | AI-character-game/app/components/VoiceGame.tsx:425 | an example: `parseInt` of an empty field is NaN (the case of an empty field cleared in the editor) |
| Base64.CharIndex | exa-elevenlabs/app/api/summarize-content/route.ts:131 | each 6-bit value has its own alphabet character, never the pad, and reading it back gives the value |
| Base64.Encode | exa-elevenlabs/app/api/summarize-content/route.ts:131 | the encoding has four characters for each started group of three bytes |
| Base64.EncodeAlphabet | exa-elevenlabs/app/api/summarize-content/route.ts:131 | an encoding uses only the alphabet and `=`, with `=` only in the last two places |
| Base64.DecodeEncode | exa-elevenlabs/app/api/summarize-content/route.ts:131 | decoding an encoding gives back exactly the bytes |
| Base64.EncodeIsWholeGroups | exa-elevenlabs/app/api/get-news/route.ts:129 | an encoding is whole groups of four, and empty only for no bytes |
| Roster.InitialCharactersUnique | AI-character-game/app/components/VoiceGame.tsx:16-53 | the four starting characters have distinct ids |
| Roster.FindById | AI-character-game/app/components/VoiceGame.tsx:129 | `find` gives nothing exactly when no character has the id, and otherwise the first character that has it |
| Roster.RecordExchange | AI-character-game/app/components/VoiceGame.tsx:167-178 | the commit keeps the roster's length and ids; each character with the id gets the user entry and then the assistant entry appended, all its other fields kept; every other character is unchanged |
| Roster.RecordExchangeChangesOne | AI-character-game/app/components/VoiceGame.tsx:167-178 | with distinct ids the commit appends the user entry and then the assistant entry to the selected character's transcript only; its other fields and all other characters are unchanged |
| Roster.RecordExchangeMissing | AI-character-game/app/components/VoiceGame.tsx:167-178 | a commit for an id nobody has changes nothing |
| Roster.RecordExchangeKeepsIds | AI-character-game/app/components/VoiceGame.tsx:167-178 | the commit keeps length, order and ids, so distinct ids stay distinct |
| Roster.Append | AI-character-game/app/components/VoiceGame.tsx:213 | the new roster is the old one, every entry in place, with the new character last |
| Roster.AppendKeepsUnique | AI-character-game/app/components/VoiceGame.tsx:213 | appending a character whose id is fresh keeps the ids distinct |
| Roster.ReplaceById | AI-character-game/app/components/VoiceGame.tsx:215-217 | saving an edit keeps the length and ids; entries with the edited id become the draft, and every other entry is unchanged |
| Roster.ReplaceByIdReplaces | AI-character-game/app/components/VoiceGame.tsx:215-217 | saving an edit replaces exactly the entries with its id and keeps length, order and ids |
| Roster.ReplaceByIdMissing | AI-character-game/app/components/VoiceGame.tsx:215-217 | saving an edit whose id is absent changes nothing |
| Roster.RemoveById | AI-character-game/app/components/VoiceGame.tsx:231 | the result holds exactly the characters whose id differs, and is no longer than the roster |
| Roster.RemoveByIdConcat | AI-character-game/app/components/VoiceGame.tsx:231 | removal works piecewise, so the kept characters stay in their original order |
| Roster.RemoveByIdMissing | AI-character-game/app/components/VoiceGame.tsx:231 | removing an absent id changes nothing |
| Roster.RemoveByIdDropsOne | AI-character-game/app/components/VoiceGame.tsx:231 | with distinct ids, removing a present id drops exactly that character |
| Roster.RemoveByIdKeepsOne | AI-character-game/app/components/VoiceGame.tsx:225-231 | with distinct ids, a roster of two or more keeps at least one character and distinct ids |
| Roster.RemoveByIdDuplicates | AI-character-game/app/components/VoiceGame.tsx:231 | an example: from a roster of two characters sharing the deleted id both go, so the floor needs distinct ids |
| Roster.WithX | AI-character-game/app/components/VoiceGame.tsx:423-426 | the X input sets X to the parsed integer, or to 0 when it does not parse; Y is kept |
| Roster.WithY | AI-character-game/app/components/VoiceGame.tsx:439-442 | the Y input sets Y to the parsed integer, or to 0 when it does not parse; X is kept |
| Roster.CoercePosition | AI-character-game/app/components/VoiceGame.tsx:425 | `parseInt(value) \|\| 0` is the parsed integer, and 0 when the input is NaN, as an empty or white-space field is |
| Roster.CoercePositionReads | AI-character-game/app/components/VoiceGame.tsx:423-426 | a typed integer followed by a tail that starts with neither a digit nor `x`/`X` (so `12.5` or `12e3`) is read as that integer, a negative one as its negation, an empty field as 0 |
| Game.NewId | AI-character-game/app/components/VoiceGame.tsx:196 | a new id starts with `character_` and the rest reads back as the clock reading |
| Game.NewCharacter | AI-character-game/app/components/VoiceGame.tsx:194-203 | the draft has the clock-based id, which no starting character has, the given position, an empty transcript and the Adam voice |
| Game.NewIdFresh | AI-character-game/app/components/VoiceGame.tsx:196 | different clock readings give different new ids, and no new id is a starting id |
| Game.UsableText | AI-character-game/app/components/VoiceGame.tsx:117-126 | the pipeline goes on exactly when the transcription is ok, has a text, and that text is not all white space |
| Game.AfterPipeline | AI-character-game/app/components/VoiceGame.tsx:117-178 | a run keeps the roster's length and ids, and changes it only when there is a selection, a usable transcription, an ok chat reply and an ok speech reply |
| Game.AfterPipelineFailure | AI-character-game/app/components/VoiceGame.tsx:117-159 | a non-ok transcription, a missing or blank text, a non-ok chat or a non-ok speech reply leaves every transcript unchanged |
| Game.AfterPipelineSuccess | AI-character-game/app/components/VoiceGame.tsx:167-178 | a fully successful run appends the user's words and the reply to the selected character only |
| Game.StaleConversation | AI-character-game/app/components/VoiceGame.tsx:66-94 | after a committed exchange, the roster held from before it still shows the character without the exchange, while the current roster shows it with the question and answer at the end |
| Game.VoiceGame.constructor | AI-character-game/app/components/VoiceGame.tsx:56-64 | the game starts with the four characters, no selection, all flags down, no recorder and no chunks, and the first render's roster captured |
| Game.VoiceGame.Select | AI-character-game/app/components/VoiceGame.tsx:265 | clicking a character selects its id; a new selection captures the current roster for the memoized `startListening`, and clicking the selected character again keeps the captured one |
| Game.VoiceGame.StartListening | AI-character-game/app/components/VoiceGame.tsx:66-94 | without a selection it only alerts, and with a denied microphone it only alerts; otherwise it makes a recorder, empties the chunks, sets listening, and binds the stop handler to the selection and the captured roster |
| Game.VoiceGame.OnChunk | AI-character-game/app/components/VoiceGame.tsx:78-80 | a chunk is appended after the earlier ones |
| Game.VoiceGame.StopListening | AI-character-game/app/components/VoiceGame.tsx:96-101 | it acts only when a recorder exists and listening is on, and then turns listening off |
| Game.VoiceGame.ProcessAudio | AI-character-game/app/components/VoiceGame.tsx:103-186 | for a given selection and the roster it looks the character up in: the roster changes only if every stage succeeds; each failing stage stops the later requests; the chat request carries the character found and the speech request its voice; the alert is raised exactly on a thrown stage; processing is down on every exit after it was raised; a valid game (at least one character, distinct ids) stays valid |
| Game.VoiceGame.OnRecorderStop | AI-character-game/app/components/VoiceGame.tsx:82-86 | as intended: the accumulated chunks are the clip sent for transcription, and the run is for the current selection with the character as it is now; a valid game stays valid |
| Game.VoiceGame.OnRecorderStopAsWritten | AI-character-game/app/components/VoiceGame.tsx:82-86 | as written: the run is for the selection and the roster the handler was bound to at `startListening`, and only its commit goes to the current roster; a valid game stays valid |
| Game.VoiceGame.EditCharacter | AI-character-game/app/components/VoiceGame.tsx:188-192 | the editor opens on a copy of the character, in edit mode |
| Game.VoiceGame.AddCharacter | AI-character-game/app/components/VoiceGame.tsx:194-207 | the editor opens on the default draft with a clock-based id, in add mode |
| Game.VoiceGame.SetName | AI-character-game/app/components/VoiceGame.tsx:356 | the draft's name changes and nothing else; without a draft nothing changes |
| Game.VoiceGame.SetPersonality | AI-character-game/app/components/VoiceGame.tsx:369 | the draft's personality changes and nothing else |
| Game.VoiceGame.SetColor | AI-character-game/app/components/VoiceGame.tsx:384 | the draft's colour changes and nothing else |
| Game.VoiceGame.SetVoice | AI-character-game/app/components/VoiceGame.tsx:398 | the draft's voice changes and nothing else |
| Game.VoiceGame.SetPositionX | AI-character-game/app/components/VoiceGame.tsx:423-426 | the draft's X is the coerced input, 0 when it does not parse, and Y is kept |
| Game.VoiceGame.SetPositionY | AI-character-game/app/components/VoiceGame.tsx:439-442 | the draft's Y is the coerced input, 0 when it does not parse, and X is kept |
| Game.VoiceGame.SaveCharacter | AI-character-game/app/components/VoiceGame.tsx:209-223 | a new draft is appended, an edit replaces the entries with its id, the selection is untouched and the editor closes; without a draft nothing changes; distinct ids survive |
| Game.VoiceGame.DeleteCharacter | AI-character-game/app/components/VoiceGame.tsx:225-237 | with one character or fewer it alerts and changes nothing; otherwise it removes every character with the id, clears the selection exactly when it was that id (capturing the new roster then) and closes the editor; the roster never drops below one character |
| Game.VoiceGame.CancelEdit | AI-character-game/app/components/VoiceGame.tsx:239-243 | the editor closes and the draft is dropped |
| ChatRoute.SystemPrompt | AI-character-game/app/api/chat/route.ts:22-24 | the system content is exactly the personality, then the fixed rules ending in `Your name is `, then the character's name and a full stop |
| ChatRoute.Recent | AI-character-game/app/api/chat/route.ts:27 | `slice(-6)` is the suffix of the transcript of length min(6, n) |
| ChatRoute.BuildMessages | AI-character-game/app/api/chat/route.ts:19-35 | the messages are the system entry, the recent history unchanged and in order, then the user's message |
| ChatRoute.BuildMessagesAfterExchange | AI-character-game/app/api/chat/route.ts:27-30 | for a character whose transcript ends with a question and its answer, the messages carry that pair just before the new message |
| ChatRoute.FallbackAsWritten | AI-character-game/app/api/chat/route.ts:64-66 | the lookup as written yields no text exactly for the names inherited from `Object.prototype`, and a non-empty text for every other id |
| ChatRoute.FallbackAsWrittenNotText | AI-character-game/app/api/chat/route.ts:57-66 | for the ids `toString` and `__proto__` the lookup as written yields no text |
| ChatRoute.Fallback | AI-character-game/app/api/chat/route.ts:57-66 | the intended fallback is always one of the five fixed lines |
| ChatRoute.FallbackAgrees | AI-character-game/app/api/chat/route.ts:57-66 | the intended fallback agrees with the written lookup wherever that yields a text, which fails exactly on inherited names; `wizard`, `warrior`, `merchant` and `scholar` each get their own line and every other id the generic line |
| ChatRoute.AnswerOf | AI-character-game/app/api/chat/route.ts:70-71 | without a choices array there is no answer (the route throws); otherwise the answer is the first choice's content when it is a non-empty text, and the "didn't catch that" line when not; it is never empty |
| ChatRoute.Chat | AI-character-game/app/api/chat/route.ts:12-16 | the intended route: a 400 carries the required-fields error and makes no call, and a reply always carries a text |
| ChatRoute.ChatAsWritten | AI-character-game/app/api/chat/route.ts:10-83 | the route as written sends the same messages as the intended one and gives the same reply, except exactly when the model answers non-ok for a character id inherited from `Object.prototype`; then the reply carries no text |
| ChatRoute.ChatAsWrittenToString | AI-character-game/app/api/chat/route.ts:64-66 | a character with id `toString` whose model call fails gets no text as written and the generic line as intended |
| ChatRoute.ChatRejects | AI-character-game/app/api/chat/route.ts:14-16 | the intended route rejects exactly a missing or empty message or a missing character, and every other reply is a non-empty text |
| ChatRoute.ChatSends | AI-character-game/app/api/chat/route.ts:38-73 | an accepted request sends the assembled messages once; a non-ok model gives the intended fallback, a text answer is passed through, an answer whose first choice is missing or has no non-empty content gives the "didn't catch that" line, and a body without choices the "trouble understanding" line |
| ChatRoute.ChatTrouble | AI-character-game/app/api/chat/route.ts:75-81 | an unreadable body or a call that throws gives the "trouble understanding" text and not an error status |
| Exa.AudioUrl | exa-elevenlabs/app/api/summarize-content/route.ts:131-132 | the audio URL is the `data:audio/mpeg;base64,` prefix and a payload in the base 64 alphabet that decodes back to the audio |
| Exa.AudioUrlInjective | exa-elevenlabs/app/api/get-news/route.ts:129-130 | different audio gives different URLs |
| SummarizeContent.SummaryHeader | exa-elevenlabs/app/api/summarize-content/route.ts:95 | the header is `Title: `, the title, a blank line, then `Summary: ` |
| SummarizeContent.SummaryOf | exa-elevenlabs/app/api/summarize-content/route.ts:95 | the summary starts with the title header and is as long as the header plus the text, or plus 1003 when the text is longer than 1000 |
| SummarizeContent.SummaryShort | exa-elevenlabs/app/api/summarize-content/route.ts:95 | a text of at most 1000 characters is carried whole, with no ellipsis |
| SummarizeContent.SummaryLong | exa-elevenlabs/app/api/summarize-content/route.ts:95 | a longer text is cut to its first 1000 characters and followed by `...` |
| SummarizeContent.Summarize | exa-elevenlabs/app/api/summarize-content/route.ts:14-44 | the checks run in order (no body 400, unreadable body 500, no url 400, no Exa key 500, no ElevenLabs key 500) and the first failure wins with no call; calls are made exactly when all pass, the first one fetching the url |
| SummarizeContent.SummarizeNoContent | exa-elevenlabs/app/api/summarize-content/route.ts:63-81 | a failed fetch is a 500 with its details, and an absent or empty result list a 404, after one call |
| SummarizeContent.SummarizeNoText | exa-elevenlabs/app/api/summarize-content/route.ts:84-92 | a missing or white-space text is a 404 and no speech is requested |
| SummarizeContent.SummarizeSpeaks | exa-elevenlabs/app/api/summarize-content/route.ts:94-141 | the summary is spoken with the Adam voice; failure is a 500 with details; success carries the audio URL, the summary, the title, the result's url and the untrimmed text |
| SummarizeContent.SummarizeTitle | exa-elevenlabs/app/api/summarize-content/route.ts:84 | a missing or empty title becomes `Untitled Content` |
| GetNews.Header | exa-elevenlabs/app/api/get-news/route.ts:88 | the spoken text opens with `Here are the latest `, the topic, ` news updates:` and a blank line |
| GetNews.Query | exa-elevenlabs/app/api/get-news/route.ts:53 | the query is `Latest `, the topic, then ` news` |
| GetNews.Highlight | exa-elevenlabs/app/api/get-news/route.ts:91 | a non-empty first highlight is used; otherwise the highlight is at most 200 characters from the start of the text, and empty without a text |
| GetNews.HighlightChoice | exa-elevenlabs/app/api/get-news/route.ts:91 | a non-empty first highlight wins, else the first 200 characters of the text, else the empty string |
| GetNews.Line | exa-elevenlabs/app/api/get-news/route.ts:92 | a line starts with `Article ` |
| GetNews.LineTitle | exa-elevenlabs/app/api/get-news/route.ts:90-92 | after `Article ` and the number, a line holds `: `, the title, `. ` and the highlight; the title is the article's own when it is present and non-empty, and `Untitled` otherwise |
| GetNews.LineEndsWithHighlight | exa-elevenlabs/app/api/get-news/route.ts:92 | a line ends with the article's highlight |
| GetNews.LineNumber | exa-elevenlabs/app/api/get-news/route.ts:92 | the line for index i starts `Article ` and its number reads back as i + 1 |
| GetNews.Lines | exa-elevenlabs/app/api/get-news/route.ts:89-93 | one line per article, in the articles' order |
| GetNews.NewsSummary | exa-elevenlabs/app/api/get-news/route.ts:88-93 | the spoken text starts with the header, and is only the header for no articles |
| GetNews.NewsSummarySnoc | exa-elevenlabs/app/api/get-news/route.ts:88-93 | one more article appends a blank line and its own line, numbered after the others |
| GetNews.NewsSummaryOne | exa-elevenlabs/app/api/get-news/route.ts:88-93 | one article gives the header followed by its line |
| GetNews.NewsSummaryLength | exa-elevenlabs/app/api/get-news/route.ts:88-93 | the summary is the header, every line, and one blank line between each two |
| GetNews.References | exa-elevenlabs/app/api/get-news/route.ts:136-139 | the returned articles have the results' count and order and keep their title and url |
| GetNews.GetNews | exa-elevenlabs/app/api/get-news/route.ts:14-54 | the checks run in order with the first failure winning and no call; calls are made exactly when all pass, the first one the search for the query with 3 results |
| GetNews.GetNewsNoArticles | exa-elevenlabs/app/api/get-news/route.ts:68-86 | a failed search is a 500 with its details, and an absent or empty list a 404, after one call |
| GetNews.GetNewsSpeaks | exa-elevenlabs/app/api/get-news/route.ts:95-140 | the summary is spoken; failure is a 500 with details; success carries the audio URL, the summary and the references |
| VoicesRoute.Label | voice-changer/app/api/voices/route.ts:23-24 | a label is its value when present and non-empty, else `Unknown`, and never empty |
| VoicesRoute.Entry | voice-changer/app/api/voices/route.ts:20-25 | an entry keeps the vendor's id and name and has a non-empty gender and accent |
| VoicesRoute.VoiceList | voice-changer/app/api/voices/route.ts:20-25 | one entry per voice in order, with the id and name carried over and gender and accent read as labels |
| VoicesRoute.ListVoices | voice-changer/app/api/voices/route.ts:10-34 | the vendor is asked exactly when the key is set and not the placeholder; otherwise a 400; a thrown call is a 500; a returned list is answered with exactly its listing, one entry per voice |
| VoicesRoute.EntryDefaults | voice-changer/app/api/voices/route.ts:23-24 | for every voice, gender and accent are each the label when it is present and non-empty, and `Unknown` otherwise; a voice without labels is of unknown gender and accent |
| VoicesRoute.VoiceListConcat | voice-changer/app/api/voices/route.ts:20-25 | listing a concatenation lists each part in turn |

## Left out

- Network calls (`fetch`, `axios`, the ElevenLabs SDK): each is an outcome parameter, and the payload fields the model checks are the ones the route computes (ids, query, result count, voice, text). Headers, model names and the float settings (temperature, stability, similarity boost) are constants of the requests that are not modelled.
- Microphone, recorder, playback, alerts and `console` output are browser I/O. Microphone access is a boolean. A recording's chunks are byte strings. An alert is a returned text. Releasing the stream's tracks after `onstop` is not modelled.
- React rendering, the display-only `slice(-6)` of the transcript, and the re-render between state updates are not modelled. Each handler applies its updates at once.
- Async interleaving is not modelled: a pipeline run is one step, and only one run at a time is assumed. The stale read of the recorder's stop handler is modelled (`Game.VoiceGame.OnRecorderStopAsWritten`, see Findings): while the selection stays the same, each chat request sends the character's transcript, personality and voice as they were when the selection last changed, so the turns taken since are missing from it.
- ChatRoute.Chat: models the route with the intended fallback lookup. The lookup as written is in `ChatRoute.ChatAsWritten` (see Findings).
- ChatRoute.ChatRejects: states its non-empty-reply claim about the intended route; the route as written replies without text for ids inherited from `Object.prototype`.
- ChatRoute.ChatSends: states the non-ok reply with the intended fallback.
- Game.VoiceGame.ProcessAudio: the chat reply's `response` field is taken as a string. A missing field would reach the speech request as `undefined`.
- Game.VoiceGame.ProcessAudio: the played audio and the object URL are not modelled.
- JSON fields are modelled with their declared types. A request field of another type, such as a number where a string is expected, is not modelled.
- A `null` element in an Exa result list is not modelled. In the routes it would throw and give the generic 500.
- JsText.Trim, JsText.Prefix: lengths count characters, not UTF-16 code units, so a text with characters outside the Basic Multilingual Plane is cut at a different place than in JavaScript.
- JsText.ParseIntDecimal: JavaScript numbers are doubles. The model reads exact integers, so very long digit strings (beyond 2^53) and the resulting rounding are not modelled.
- Game.NewIdFresh: `Date.now()` is a natural-number parameter. Whether two adds can see the same reading is left to the caller.
- The remaining proxy routes (text-to-speech, speech-to-text, isolate, convert-voice, generate-sfx, tts, dub, align) and the other pages are not part of this model. They only forward to vendor calls.

## Findings

| source | as written | input that shows it | evidently intended | confidence | as-written member | corrected member |
|---|---|---|---|---|---|---|
| AI-character-game/app/api/chat/route.ts:57-66 | the fallback table is a plain object, so `fallbackResponses[character.id]` also finds the members inherited from `Object.prototype`; these are truthy and replace the generic line with a function or an object, and the reply then carries no `response` text | a character with id `toString` (or `__proto__`, `constructor`, …) when the model call answers non-ok | only the four own entries are looked up, and every other id gets "I seem to be lost in thought…" | not executed | ChatRoute.ChatAsWritten | ChatRoute.Chat |
| AI-character-game/app/components/VoiceGame.tsx:66-94 | `startListening` is memoized on `[selectedCharacter]` alone, so a recorder's `onstop` runs the `processAudio` of the render in which the selection last changed, and that function reads that render's `characters` (line 129); while the selection stays the same, every chat request carries the character's transcript, personality and voice as they were then | select a character, complete one turn, then speak again without re-selecting: the second chat request lacks the first question and answer (`Game.StaleConversation`) | each request carries the selected character as it is now, so the model sees the previous turns | not executed | Game.VoiceGame.OnRecorderStopAsWritten | Game.VoiceGame.OnRecorderStop |
