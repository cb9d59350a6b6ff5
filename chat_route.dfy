/** The chat route of the character game: it checks the request, assembles the messages
    for the language model (a system prompt from the character, the last six transcript
    entries, the new message), and turns the model's answer, or its failure, into a reply
    text. The HTTP exchange with the model is an outcome passed in. */
module ChatRoute {
  import opened Wrappers
  import opened Roster
  import JsText

  /** The character the client sends: the fields the route reads. */
  datatype ChatCharacter = ChatCharacter(id: string, name: string, personality: string,
                                         conversation: seq<Message>)

  /** The parsed JSON body; `character` is absent when the field is missing or null. */
  datatype ChatRequest = ChatRequest(message: Option<string>, character: Option<ChatCharacter>)

  /** What the call to the model gave: it threw, answered with a non-ok status, or
      answered ok. `choices` is absent when the body is not JSON or has no `choices`
      array (reading `choices[0]` then throws); each choice is its `message?.content`. */
  datatype Upstream = Threw | NotOk | Ok(choices: Option<seq<Option<string>>>)

  /** The route's JSON reply: status 400 with an error, a `response` text, or a reply
      whose `response` is not a string (a function, which serialisation drops, or an
      object). */
  datatype ChatReply = BadRequest(error: string) | Reply(response: string) | NoText

  /** The reply, and the messages sent to the model when a call was made. */
  datatype ChatOutcome = ChatOutcome(reply: ChatReply, sent: Option<seq<Message>>)

  const MaxHistory: nat := 6

  const RequiredError: string := "Message and character are required"
  const LostInThought: string := "I seem to be lost in thought at the moment. Could you try speaking to me again?"
  const DidntCatch: string := "I'm sorry, I didn't catch that. Could you say that again?"
  const Trouble: string := "I seem to be having trouble understanding right now. Could you try again?"

  const WizardLine: string :=
    "The mystical energies are clouded today, dear seeker. Perhaps we shall speak again when the cosmic winds are clearer."
  const WarriorLine: string :=
    "My sword arm grows restless! Let us speak of this matter another time when battle calls less urgently."
  const MerchantLine: string :=
    "Ah, business is booming elsewhere! I must attend to a profitable venture, but we'll talk trade soon!"
  const ScholarLine: string :=
    "My studies require immediate attention. Let us continue this fascinating discussion when I return from the archives."

  const PromptRules: string :=
    "\n\nRemember to stay in character and refer to previous conversations when relevant. Keep responses concise but engaging, around 1-3 sentences. Your name is "

  /** The system message: the personality, then the fixed rules ending in
      `Your name is `, then the character's name and a full stop. */
  function SystemPrompt(c: ChatCharacter): (p: string)
    ensures |p| == |c.personality| + |PromptRules| + |c.name| + 1
    ensures c.personality <= p
    ensures p[|c.personality|..|c.personality| + |PromptRules|] == PromptRules
    ensures p[|c.personality| + |PromptRules|..] == c.name + "."
  {
    var p := c.personality + PromptRules + c.name + ".";
    var k := |c.personality| + |PromptRules|;
    assert p[|c.personality|..k] == PromptRules;
    assert p[k..] == c.name + ".";
    p
  }

  /** `conversation.slice(-6)`: the last six entries, or all of them when there are
      fewer. */
  function Recent(conversation: seq<Message>): (h: seq<Message>)
    ensures |h| == if |conversation| < MaxHistory then |conversation| else MaxHistory
    ensures h == conversation[|conversation| - |h|..]
  {
    if |conversation| <= MaxHistory then conversation
    else conversation[|conversation| - MaxHistory..]
  }

  /** The messages sent to the model: the system prompt first, the user's message last,
      and the recent history in between in its original order. */
  function BuildMessages(message: string, c: ChatCharacter): (m: seq<Message>)
    ensures 2 <= |m| <= 2 + MaxHistory
    ensures m[0] == Message(System, SystemPrompt(c))
    ensures m[|m| - 1] == Message(User, message)
    ensures m[1..|m| - 1] == Recent(c.conversation)
  {
    var m := [Message(System, SystemPrompt(c))] + Recent(c.conversation) + [Message(User, message)];
    assert m[1..|m| - 1] == Recent(c.conversation);
    m
  }

  /** The transcript a character has after the game commits an exchange ends, in the
      next request, with that question and answer right before the new message. */
  lemma BuildMessagesAfterExchange(c: ChatCharacter, text: string, answer: string, message: string)
    ensures var c' := c.(conversation := c.conversation + [Message(User, text), Message(Assistant, answer)]);
      var m := BuildMessages(message, c');
      |m| >= 4 && m[|m| - 3] == Message(User, text) && m[|m| - 2] == Message(Assistant, answer)
  {
    var conv := c.conversation + [Message(User, text), Message(Assistant, answer)];
    var c' := c.(conversation := conv);
    var m := BuildMessages(message, c');
    var h := Recent(conv);
    assert |h| >= 2;
    assert m[1..|m| - 1] == h;
    assert h[|h| - 1] == conv[|conv| - 1];
    assert h[|h| - 2] == conv[|conv| - 2];
    assert m[|m| - 2] == m[1..|m| - 1][|h| - 1];
    assert m[|m| - 3] == m[1..|m| - 1][|h| - 2];
  }

  /** The names an object literal inherits from `Object.prototype`; looking one of them
      up in the fallback table finds a function or an object, never a string. */
  const PrototypeNames: set<string> := {
    "constructor", "__defineGetter__", "__defineSetter__", "hasOwnProperty",
    "__lookupGetter__", "__lookupSetter__", "isPrototypeOf", "propertyIsEnumerable",
    "toString", "valueOf", "__proto__", "toLocaleString"
  }

  /** The fallback table's own entries. */
  function OwnFallback(id: string): Option<string> {
    if id == "wizard" then Some(WizardLine)
    else if id == "warrior" then Some(WarriorLine)
    else if id == "merchant" then Some(MerchantLine)
    else if id == "scholar" then Some(ScholarLine)
    else None
  }

  /** `fallbackResponses[id] || LostInThought` as written: an inherited member is truthy
      and is returned instead of a text, so the reply carries no string (`None` here). */
  function FallbackAsWritten(id: string): (line: Option<string>)
    ensures line.None? <==> id in PrototypeNames
    ensures line.Some? ==> line.value != ""
  {
    assert id in PrototypeNames ==> OwnFallback(id).None? by {
      if id in PrototypeNames {
        assert id[0] != 'w' && id[0] != 'm' && id[0] != 's';
      }
    }
    if OwnFallback(id).Some? then OwnFallback(id)
    else if id in PrototypeNames then None
    else Some(LostInThought)
  }

  /** For the id `toString` the fallback as written yields no text. */
  lemma FallbackAsWrittenNotText()
    ensures FallbackAsWritten("toString") == None
    ensures FallbackAsWritten("__proto__") == None
  {
  }

  /** The fallback as intended: the character's own line, or the generic one. */
  function Fallback(id: string): (line: string)
    ensures line in {WizardLine, WarriorLine, MerchantLine, ScholarLine, LostInThought}
    ensures line != ""
  {
    OwnFallback(id).GetOr(LostInThought)
  }

  /** The intended fallback agrees with the written one wherever that yields a text, and
      the four starting characters each get their own line. */
  lemma FallbackAgrees(id: string)
    ensures FallbackAsWritten(id).Some? ==> FallbackAsWritten(id) == Some(Fallback(id))
    ensures FallbackAsWritten(id).None? <==> id in PrototypeNames
    ensures id == "wizard" ==> Fallback(id) == WizardLine
    ensures id == "warrior" ==> Fallback(id) == WarriorLine
    ensures id == "merchant" ==> Fallback(id) == MerchantLine
    ensures id == "scholar" ==> Fallback(id) == ScholarLine
    ensures OwnFallback(id).None? ==> Fallback(id) == LostInThought
  {
  }

  /** `data.choices[0]?.message?.content || DidntCatch`; no choices array throws. */
  function AnswerOf(choices: Option<seq<Option<string>>>): (a: Option<string>)
    ensures a.None? <==> choices.None?
    ensures a.Some? ==> a.value != ""
    ensures choices.Some? && |choices.value| > 0 && JsText.Truthy(choices.value[0]) ==> a == choices.value[0]
    ensures choices.Some? && !(|choices.value| > 0 && JsText.Truthy(choices.value[0])) ==> a == Some(DidntCatch)
  {
    match choices
    case None => None
    case Some(cs) =>
      if |cs| > 0 && JsText.Truthy(cs[0]) then cs[0] else Some(DidntCatch)
  }

  /** The route as intended. Without a message or a character it answers 400 and calls
      nothing; otherwise it sends the assembled messages once and always answers with a
      text. */
  function Chat(request: Option<ChatRequest>, upstream: Upstream): (out: ChatOutcome)
    ensures out.reply.BadRequest? ==> out.reply.error == RequiredError && out.sent == None
    ensures !out.reply.NoText?
  {
    match request
    case None => ChatOutcome(Reply(Trouble), None)
    case Some(req) =>
      if !JsText.Truthy(req.message) || req.character.None? then
        ChatOutcome(BadRequest(RequiredError), None)
      else
        var c := req.character.value;
        var sent := Some(BuildMessages(req.message.value, c));
        match upstream
        case Threw => ChatOutcome(Reply(Trouble), sent)
        case NotOk => ChatOutcome(Reply(Fallback(c.id)), sent)
        case Ok(choices) =>
          match AnswerOf(choices)
          case None => ChatOutcome(Reply(Trouble), sent)
          case Some(a) => ChatOutcome(Reply(a), sent)
  }

  /** The route as written, with the fallback looked up on the plain object. It differs
      from the intended route only when the model answers non-ok for a character whose
      id names an `Object.prototype` member, and then the reply carries no text. */
  function ChatAsWritten(request: Option<ChatRequest>, upstream: Upstream): (out: ChatOutcome)
    ensures out.sent == Chat(request, upstream).sent
    ensures out.reply.NoText? <==>
      upstream.NotOk? && out.sent.Some? && request.value.character.value.id in PrototypeNames
    ensures !out.reply.NoText? ==> out == Chat(request, upstream)
  {
    match request
    case None => ChatOutcome(Reply(Trouble), None)
    case Some(req) =>
      if !JsText.Truthy(req.message) || req.character.None? then
        ChatOutcome(BadRequest(RequiredError), None)
      else
        var c := req.character.value;
        var sent := Some(BuildMessages(req.message.value, c));
        match upstream
        case Threw => ChatOutcome(Reply(Trouble), sent)
        case NotOk =>
          (match FallbackAsWritten(c.id)
           case None => ChatOutcome(NoText, sent)
           case Some(line) => ChatOutcome(Reply(line), sent))
        case Ok(choices) =>
          match AnswerOf(choices)
          case None => ChatOutcome(Reply(Trouble), sent)
          case Some(a) => ChatOutcome(Reply(a), sent)
  }

  /** A character with the id `toString` whose model call fails gets a reply without
      text from the route as written, and its own generic line from the intended one. */
  lemma ChatAsWrittenToString(message: string, name: string, personality: string)
    requires message != ""
    ensures var req := Some(ChatRequest(Some(message), Some(ChatCharacter("toString", name, personality, []))));
      ChatAsWritten(req, NotOk).reply == NoText && Chat(req, NotOk).reply == Reply(LostInThought)
  {
    assert "toString" in PrototypeNames;
    assert OwnFallback("toString") == None;
  }

  /** The route rejects exactly the requests without a message text or a character, and
      then makes no call; every other request is answered with a non-empty text. */
  lemma ChatRejects(req: ChatRequest, upstream: Upstream)
    ensures Chat(Some(req), upstream).reply.BadRequest? <==>
      (req.message.None? || req.message.value == "" || req.character.None?)
    ensures Chat(Some(req), upstream).reply.Reply? ==> Chat(Some(req), upstream).reply.response != ""
  {
    if req.message.None? || req.message.value == "" || req.character.None? {
      assert Chat(Some(req), upstream).reply == BadRequest(RequiredError);
    } else {
      var c := req.character.value;
      match upstream
      case Threw =>
        assert Chat(Some(req), upstream).reply == Reply(Trouble);
      case NotOk =>
        assert Chat(Some(req), upstream).reply == Reply(Fallback(c.id));
      case Ok(choices) =>
        var a := AnswerOf(choices);
        assert Chat(Some(req), upstream).reply == Reply(if a.None? then Trouble else a.value);
    }
  }

  /** An accepted request sends its messages exactly once, whatever the model does; a
      model answer with text is passed through unchanged, an answer without a usable
      first choice gives the didn't-catch line, and a body without choices the trouble
      line. */
  lemma ChatSends(message: string, c: ChatCharacter, upstream: Upstream)
    requires message != ""
    ensures Chat(Some(ChatRequest(Some(message), Some(c))), upstream).sent == Some(BuildMessages(message, c))
    ensures upstream.NotOk? ==> Chat(Some(ChatRequest(Some(message), Some(c))), upstream).reply == Reply(Fallback(c.id))
    ensures upstream.Ok? && upstream.choices.Some? && |upstream.choices.value| > 0 &&
            upstream.choices.value[0].Some? && upstream.choices.value[0].value != "" ==>
      Chat(Some(ChatRequest(Some(message), Some(c))), upstream).reply == Reply(upstream.choices.value[0].value)
    ensures upstream.Ok? && upstream.choices.Some? &&
            !(|upstream.choices.value| > 0 && JsText.Truthy(upstream.choices.value[0])) ==>
      Chat(Some(ChatRequest(Some(message), Some(c))), upstream).reply == Reply(DidntCatch)
    ensures upstream.Ok? && upstream.choices.None? ==>
      Chat(Some(ChatRequest(Some(message), Some(c))), upstream).reply == Reply(Trouble)
  {
  }

  /** A body that cannot be read, or a call that throws, is answered with the trouble
      line and not an error status. */
  lemma ChatTrouble(request: Option<ChatRequest>, upstream: Upstream)
    requires request.None? || (request.value.message.Some? && request.value.message.value != "" &&
                               request.value.character.Some? && upstream.Threw?)
    ensures Chat(request, upstream).reply == Reply(Trouble)
  {
  }
}
