/** The voice game component: its state (the roster, the selection, the recording and
    processing flags, the editor) and the handlers that update it. Each `fetch` of the
    pipeline is an outcome passed in by the caller; browser I/O (microphone, playback,
    alerts shown) is reduced to the values the handlers return. */
module Game {
  import opened Wrappers
  import opened Roster
  import JsText
  import Base64

  /** One recorded audio fragment. */
  type Chunk = seq<Base64.byte>

  /** What the client reads from one `fetch` to a local route: `response.ok`, and the
      field it takes from the body. */
  datatype Reply<T> = Reply(ok: bool, body: T)

  /** A request the pipeline sends to a local route. */
  datatype Request =
    | Transcribe(audio: seq<Chunk>)
    | Chat(message: string, character: Character)
    | Speak(text: string, voice: string)

  const NoCharacterAlert: string := "Please select a character to talk to!"
  const MicrophoneAlert: string := "Could not access microphone. Please check permissions."
  const PipelineAlert: string := "Error processing your message. Please try again."
  const RosterFloorAlert: string := "You must have at least one character!"

  const NewIdPrefix: string := "character_"

  /** `character_${Date.now()}`, for a clock reading `now`. */
  function NewId(now: nat): (id: string)
    ensures NewIdPrefix <= id
    ensures JsText.ParseInt(id[|NewIdPrefix|..]) == Some(now)
  {
    var d := JsText.Decimal(now);
    assert (NewIdPrefix + d)[|NewIdPrefix|..] == d + [];
    JsText.ParseIntDecimal(now, []);
    NewIdPrefix + d
  }

  /** The draft the Add button opens, placed at (`x`, `y`): a fresh id, no transcript,
      the default voice. */
  function NewCharacter(now: nat, x: real, y: real): (c: Character)
    ensures c.id == NewId(now) && !HasId(InitialCharacters, c.id)
    ensures c.position == Position(x, y) && c.conversation == [] && c.voice == AdamVoice
  {
    NewIdFresh(now, now);
    Character(NewId(now), "New Character", "You are a helpful and friendly character.",
      Position(x, y), [], "bg-gray-600", AdamVoice)
  }

  /** Different clock readings give different ids, and none of them is a starting id. */
  lemma NewIdFresh(t1: nat, t2: nat)
    ensures t1 != t2 ==> NewId(t1) != NewId(t2)
    ensures !HasId(InitialCharacters, NewId(t1))
  {
    var id := NewId(t1);
    if id == NewId(t2) {
      assert JsText.ParseInt(id[|NewIdPrefix|..]) == Some(t2);
    }
    NotInitial(id);
  }

  /** No starting id begins with the letter `c`, as every new id does. */
  lemma NotInitial(id: string)
    requires NewIdPrefix <= id
    ensures !HasId(InitialCharacters, id)
  {
    assert id[0] == 'c';
    forall i | 0 <= i < |InitialCharacters| ensures InitialCharacters[i].id != id {
      assert InitialCharacters[i].id[0] != 'c';
    }
  }

  /** The text the pipeline goes on with: present after an ok transcription, and not
      white space only. */
  function UsableText(t: Reply<Option<string>>): (text: Option<string>)
    ensures text.Some? <==> t.ok && t.body.Some? && !JsText.AllWhiteSpace(t.body.value)
    ensures text.Some? ==> text == t.body
  {
    if t.ok && t.body.Some? && JsText.Trim(t.body.value) != "" then t.body else None
  }

  /** `!selectedCharacter` is false: an id is selected and it is not empty. */
  predicate IsSelection(selected: Option<string>) {
    selected.Some? && selected.value != ""
  }

  /** The roster after one pipeline run for the selected id, where `view` is the roster
      the run looks the character up in and `r` the one the commit is applied to: the
      exchange is committed only when there is a selection, the transcription is ok and
      not blank, the character is found, and both the chat and the speech replies are
      ok. The commit keeps every id in place. */
  function AfterPipeline(r: seq<Character>, view: seq<Character>, selected: Option<string>,
                         t: Reply<Option<string>>, chat: Reply<string>, speechOk: bool): (r': seq<Character>)
    ensures |r'| == |r| && forall i :: 0 <= i < |r| ==> r'[i].id == r[i].id
    ensures r' != r ==> IsSelection(selected) && UsableText(t).Some? && chat.ok && speechOk
  {
    if IsSelection(selected) && UsableText(t).Some? && FindById(view, selected.value).Some? &&
       chat.ok && speechOk
    then RecordExchange(r, selected.value, UsableText(t).value, chat.body)
    else r
  }

  /** A run that fails or stops at any stage leaves every transcript as it was. */
  lemma AfterPipelineFailure(r: seq<Character>, view: seq<Character>, selected: Option<string>,
                             t: Reply<Option<string>>, chat: Reply<string>, speechOk: bool)
    requires !t.ok || t.body.None? || JsText.AllWhiteSpace(t.body.value) || !chat.ok || !speechOk
    ensures AfterPipeline(r, view, selected, t, chat, speechOk) == r
  {
  }

  /** A fully successful run adds, to the selected character only, the user's words and
      then the reply; with distinct ids every other character is unchanged. */
  lemma AfterPipelineSuccess(r: seq<Character>, k: nat, text: string, chat: Reply<string>)
    requires UniqueIds(r) && k < |r| && r[k].id != ""
    requires !JsText.AllWhiteSpace(text) && chat.ok
    ensures var r' := AfterPipeline(r, r, Some(r[k].id), Reply(true, Some(text)), chat, true);
      && |r'| == |r|
      && r'[k].conversation == r[k].conversation + [Message(User, text), Message(Assistant, chat.body)]
      && r'[k].(conversation := r[k].conversation) == r[k]
      && forall j :: 0 <= j < |r| && j != k ==> r'[j] == r[j]
  {
    assert HasId(r, r[k].id);
    RecordExchangeChangesOne(r, k, text, chat.body);
  }

  /** With distinct ids, looking up the id at index `k` finds that character. */
  lemma FindByIdAt(r: seq<Character>, k: nat)
    requires UniqueIds(r) && k < |r|
    ensures FindById(r, r[k].id) == Some(r[k])
  {
    assert HasId(r, r[k].id);
    var found := FindById(r, r[k].id);
    var k' :| 0 <= k' < |r| && r[k'] == found.value && r[k'].id == r[k].id &&
              (forall j :: 0 <= j < k' ==> r[j].id != r[k].id);
    assert k' == k;
  }

  /** The stale read: after a committed exchange, the roster held since the selection
      last changed still shows the character without it, while the current roster shows
      it with the question and answer at the end. A run that looks the character up in
      the older roster sends the transcript without the turn just taken. */
  lemma StaleConversation(r: seq<Character>, k: nat, text: string, chat: Reply<string>)
    requires UniqueIds(r) && k < |r| && r[k].id != ""
    requires !JsText.AllWhiteSpace(text) && chat.ok
    ensures var r' := AfterPipeline(r, r, Some(r[k].id), Reply(true, Some(text)), chat, true);
      && FindById(r, r[k].id) == Some(r[k])
      && FindById(r', r[k].id).Some?
      && FindById(r', r[k].id).value.conversation ==
         r[k].conversation + [Message(User, text), Message(Assistant, chat.body)]
      && FindById(r', r[k].id) != FindById(r, r[k].id)
  {
    var r' := AfterPipeline(r, r, Some(r[k].id), Reply(true, Some(text)), chat, true);
    AfterPipelineSuccess(r, k, text, chat);
    RecordExchangeKeepsIds(r, r[k].id, text, chat.body);
    assert r'[k].id == r[k].id;
    FindByIdAt(r, k);
    FindByIdAt(r', k);
    assert |r'[k].conversation| == |r[k].conversation| + 2;
  }

  class VoiceGame {
    var characters: seq<Character>
    var selected: Option<string>
    var isListening: bool
    var isProcessing: bool
    var showEditor: bool
    var editing: Option<Character>
    var isAddingNew: bool
    /** Whether `mediaRecorderRef.current` holds a recorder. */
    var hasRecorder: bool
    /** `audioChunksRef.current`. */
    var chunks: seq<Chunk>
    /** The roster as of the render in which the selection last changed. `startListening`
        is memoized on the selection alone, so it holds that render's `processAudio`,
        which reads that render's `characters`. */
    var captured: seq<Character>
    /** The selection and the roster that the running recorder's `onstop` was bound to
        when `startListening` created it. */
    var recorderSelected: Option<string>
    var recorderView: seq<Character>

    /** At least one character, with distinct ids. */
    ghost predicate Valid()
      reads this
    {
      |characters| >= 1 && UniqueIds(characters)
    }

    constructor ()
      ensures Valid()
      ensures characters == InitialCharacters && selected == None
      ensures !isListening && !isProcessing && !showEditor && editing == None && !isAddingNew
      ensures !hasRecorder && chunks == []
      ensures captured == InitialCharacters && recorderSelected == None && recorderView == InitialCharacters
    {
      characters := InitialCharacters;
      selected := None;
      isListening := false;
      isProcessing := false;
      showEditor := false;
      editing := None;
      isAddingNew := false;
      hasRecorder := false;
      chunks := [];
      captured := InitialCharacters;
      recorderSelected := None;
      recorderView := InitialCharacters;
      InitialCharactersUnique();
    }

    /** `!selectedCharacter` is false: an id is selected and it is not empty. */
    predicate HasSelection()
      reads this
    {
      IsSelection(selected)
    }

    /** Clicking a character selects it. A new selection re-renders with the current
        roster, which the memoized `startListening` then holds; clicking the selected
        character again changes nothing. */
    method Select(id: string)
      modifies this`selected, this`captured
      ensures selected == Some(id)
      ensures captured == if old(selected) == Some(id) then old(captured) else characters
    {
      if selected != Some(id) {
        captured := characters;
      }
      selected := Some(id);
    }

    /** `startListening`, with `granted` the outcome of asking for the microphone. With no
        selection it only alerts; otherwise a granted microphone gets a fresh recorder,
        an emptied chunk list and the listening flag, and its stop handler is bound to
        the selection and to the captured roster. There is no guard on an active
        recording. */
    method StartListening(granted: bool) returns (alert: Option<string>)
      modifies this`hasRecorder, this`chunks, this`isListening, this`recorderSelected, this`recorderView
      ensures !HasSelection() ==> alert == Some(NoCharacterAlert)
      ensures HasSelection() && !granted ==> alert == Some(MicrophoneAlert)
      ensures HasSelection() && granted ==> alert == None && hasRecorder && chunks == [] && isListening
      ensures HasSelection() && granted ==> recorderSelected == selected && recorderView == captured
      ensures !(HasSelection() && granted) ==>
        hasRecorder == old(hasRecorder) && chunks == old(chunks) && isListening == old(isListening) &&
        recorderSelected == old(recorderSelected) && recorderView == old(recorderView)
    {
      if !HasSelection() {
        return Some(NoCharacterAlert);
      }
      if !granted {
        return Some(MicrophoneAlert);
      }
      hasRecorder := true;
      chunks := [];
      isListening := true;
      recorderSelected := selected;
      recorderView := captured;
      alert := None;
    }

    /** The recorder's `ondataavailable`: the fragment goes at the end. */
    method OnChunk(c: Chunk)
      modifies this`chunks
      ensures chunks == old(chunks) + [c]
    {
      chunks := chunks + [c];
    }

    /** `stopListening`: stops only an existing recorder while listening, and then clears
        the listening flag. */
    method StopListening() returns (stopped: bool)
      modifies this`isListening
      ensures stopped == (old(hasRecorder) && old(isListening))
      ensures isListening == (old(isListening) && !stopped)
    {
      stopped := hasRecorder && isListening;
      if stopped {
        isListening := false;
      }
    }

    /** `processAudio` for the selection `sel`, looking the character up in `view`, with
        the outcomes of the three requests. It returns the requests made, in order, and
        the alert shown. Only a run where every stage succeeds changes the roster, and
        the processing flag is down on every way out that has raised it. */
    method ProcessAudio(sel: Option<string>, view: seq<Character>, clip: seq<Chunk>,
                        transcription: Reply<Option<string>>, chat: Reply<string>, speechOk: bool)
      returns (requests: seq<Request>, alert: Option<string>)
      modifies this`characters, this`isProcessing
      ensures characters == AfterPipeline(old(characters), view, sel, transcription, chat, speechOk)
      ensures old(Valid()) ==> Valid()
      ensures !IsSelection(sel) ==> requests == [] && alert == None && isProcessing == old(isProcessing)
      ensures IsSelection(sel) ==> !isProcessing && 1 <= |requests| <= 3 && requests[0] == Transcribe(clip)
      ensures |requests| >= 2 <==>
        IsSelection(sel) && UsableText(transcription).Some? && FindById(view, sel.value).Some?
      ensures |requests| >= 2 ==>
        requests[1] == Chat(transcription.body.value, FindById(view, sel.value).value)
      ensures |requests| == 3 <==> |requests| >= 2 && chat.ok
      ensures |requests| == 3 ==>
        requests[2] == Speak(chat.body, FindById(view, sel.value).value.voice)
      ensures alert.Some? ==> alert == Some(PipelineAlert)
      ensures alert.Some? <==> (IsSelection(sel) &&
        (!transcription.ok || transcription.body.None? || |requests| == 2 || (|requests| == 3 && !speechOk)))
    {
      requests, alert := [], None;
      if !IsSelection(sel) {
        return;
      }
      isProcessing := true;
      requests := [Transcribe(clip)];
      if !transcription.ok || transcription.body.None? {
        // A failed response throws; a missing `text` makes `text.trim()` throw.
        alert := Some(PipelineAlert);
        isProcessing := false;
        return;
      }
      var text := transcription.body.value;
      if JsText.Trim(text) == "" {
        isProcessing := false;
        return;
      }
      var found := FindById(view, sel.value);
      if found.None? {
        isProcessing := false;
        return;
      }
      var character := found.value;
      requests := requests + [Chat(text, character)];
      if !chat.ok {
        alert := Some(PipelineAlert);
        isProcessing := false;
        return;
      }
      requests := requests + [Speak(chat.body, character.voice)];
      if !speechOk {
        alert := Some(PipelineAlert);
        isProcessing := false;
        return;
      }
      RecordExchangeKeepsIds(characters, sel.value, text, chat.body);
      characters := RecordExchange(characters, sel.value, text, chat.body);
      isProcessing := false;
    }

    /** The recorder's `onstop` as intended: the accumulated chunks become the clip, and
        the run is for the current selection with the character as it is now. */
    method OnRecorderStop(transcription: Reply<Option<string>>, chat: Reply<string>, speechOk: bool)
      returns (requests: seq<Request>, alert: Option<string>)
      modifies this`characters, this`isProcessing
      ensures characters ==
        AfterPipeline(old(characters), old(characters), selected, transcription, chat, speechOk)
      ensures old(Valid()) ==> Valid()
      ensures HasSelection() ==> !isProcessing && |requests| >= 1 && requests[0] == Transcribe(chunks)
      ensures !HasSelection() ==> requests == [] && isProcessing == old(isProcessing)
      ensures |requests| >= 2 <==>
        HasSelection() && UsableText(transcription).Some? && FindById(old(characters), selected.value).Some?
      ensures |requests| >= 2 ==>
        requests[1] == Chat(transcription.body.value, FindById(old(characters), selected.value).value)
    {
      requests, alert := ProcessAudio(selected, characters, chunks, transcription, chat, speechOk);
    }

    /** The recorder's `onstop` as written: it runs the `processAudio` that
        `startListening` held, so the selection and the roster it reads are the ones
        bound when recording started, themselves as of the last change of selection; only
        the commit goes to the current roster. */
    method OnRecorderStopAsWritten(transcription: Reply<Option<string>>, chat: Reply<string>, speechOk: bool)
      returns (requests: seq<Request>, alert: Option<string>)
      modifies this`characters, this`isProcessing
      ensures characters ==
        AfterPipeline(old(characters), recorderView, recorderSelected, transcription, chat, speechOk)
      ensures old(Valid()) ==> Valid()
      ensures IsSelection(recorderSelected) ==> !isProcessing && |requests| >= 1 && requests[0] == Transcribe(chunks)
      ensures !IsSelection(recorderSelected) ==> requests == [] && isProcessing == old(isProcessing)
      ensures |requests| >= 2 <==>
        IsSelection(recorderSelected) && UsableText(transcription).Some? &&
        FindById(recorderView, recorderSelected.value).Some?
      ensures |requests| >= 2 ==>
        requests[1] == Chat(transcription.body.value, FindById(recorderView, recorderSelected.value).value)
    {
      requests, alert := ProcessAudio(recorderSelected, recorderView, chunks, transcription, chat, speechOk);
    }

    /** Opening the editor on a copy of `c`. */
    method EditCharacter(c: Character)
      modifies this`editing, this`isAddingNew, this`showEditor
      ensures editing == Some(c) && !isAddingNew && showEditor
    {
      editing := Some(c);
      isAddingNew := false;
      showEditor := true;
    }

    /** Opening the editor on a new draft, with the clock reading and the random
        placement as inputs. */
    method AddCharacter(now: nat, x: real, y: real)
      modifies this`editing, this`isAddingNew, this`showEditor
      ensures editing == Some(NewCharacter(now, x, y)) && isAddingNew && showEditor
    {
      editing := Some(NewCharacter(now, x, y));
      isAddingNew := true;
      showEditor := true;
    }

    /** The name field of the open draft; with no draft nothing changes. */
    method SetName(name: string)
      modifies this`editing
      ensures editing == if old(editing).None? then None else Some(old(editing).value.(name := name))
    {
      if editing.Some? {
        editing := Some(editing.value.(name := name));
      }
    }

    /** The personality field of the open draft. */
    method SetPersonality(personality: string)
      modifies this`editing
      ensures editing ==
        if old(editing).None? then None else Some(old(editing).value.(personality := personality))
    {
      if editing.Some? {
        editing := Some(editing.value.(personality := personality));
      }
    }

    /** The colour buttons of the open draft. */
    method SetColor(color: string)
      modifies this`editing
      ensures editing == if old(editing).None? then None else Some(old(editing).value.(color := color))
    {
      if editing.Some? {
        editing := Some(editing.value.(color := color));
      }
    }

    /** The voice selector of the open draft. */
    method SetVoice(voice: string)
      modifies this`editing
      ensures editing == if old(editing).None? then None else Some(old(editing).value.(voice := voice))
    {
      if editing.Some? {
        editing := Some(editing.value.(voice := voice));
      }
    }

    /** The X input of the open draft: `parseInt(value) || 0`, Y kept. */
    method SetPositionX(input: string)
      modifies this`editing
      ensures old(editing).None? ==> editing == None
      ensures old(editing).Some? ==> (editing.Some? &&
        editing.value == old(editing).value.(position := WithX(old(editing).value.position, input)))
      ensures old(editing).Some? && JsText.ParseInt(input).None? ==>
        editing.value.position == Position(0.0, old(editing).value.position.y)
    {
      if editing.Some? {
        editing := Some(editing.value.(position := WithX(editing.value.position, input)));
      }
    }

    /** The Y input of the open draft: `parseInt(value) || 0`, X kept. */
    method SetPositionY(input: string)
      modifies this`editing
      ensures old(editing).None? ==> editing == None
      ensures old(editing).Some? ==> (editing.Some? &&
        editing.value == old(editing).value.(position := WithY(old(editing).value.position, input)))
      ensures old(editing).Some? && JsText.ParseInt(input).None? ==>
        editing.value.position == Position(old(editing).value.position.x, 0.0)
    {
      if editing.Some? {
        editing := Some(editing.value.(position := WithY(editing.value.position, input)));
      }
    }

    /** `handleSaveCharacter`: a new draft goes at the end, an edited one replaces the
        entries with its id; the selection is untouched and the editor closes. Without a
        draft nothing happens. The roster invariant survives when a new draft's id is
        fresh. */
    method SaveCharacter()
      modifies this`characters, this`showEditor, this`editing, this`isAddingNew
      ensures old(editing).None? ==> (characters == old(characters) && showEditor == old(showEditor) &&
        editing == None && isAddingNew == old(isAddingNew))
      ensures old(editing).Some? && old(isAddingNew) ==>
        characters == Append(old(characters), old(editing).value)
      ensures old(editing).Some? && !old(isAddingNew) ==>
        characters == ReplaceById(old(characters), old(editing).value)
      ensures old(editing).Some? ==> !showEditor && editing == None && !isAddingNew
      ensures (old(Valid()) && (old(isAddingNew) && old(editing).Some? ==>
                                 !HasId(old(characters), old(editing).value.id))) ==> Valid()
    {
      if editing.None? {
        return;
      }
      var e := editing.value;
      if isAddingNew {
        AppendKeepsUnique(characters, e);
        characters := Append(characters, e);
      } else {
        ReplaceByIdReplaces(characters, e);
        characters := ReplaceById(characters, e);
      }
      showEditor := false;
      editing := None;
      isAddingNew := false;
    }

    /** `handleDeleteCharacter`: refused with an alert when one character or fewer is
        left; otherwise every character with the id goes, the selection is cleared exactly
        when it was that id, and the editor closes. */
    method DeleteCharacter(id: string) returns (alert: Option<string>)
      modifies this`characters, this`selected, this`showEditor, this`editing, this`captured
      ensures |old(characters)| <= 1 ==> (alert == Some(RosterFloorAlert) &&
        characters == old(characters) && selected == old(selected) &&
        showEditor == old(showEditor) && editing == old(editing) && captured == old(captured))
      ensures |old(characters)| > 1 ==> (alert == None &&
        characters == RemoveById(old(characters), id) &&
        selected == (if old(selected) == Some(id) then None else old(selected)) &&
        !showEditor && editing == None)
      ensures |old(characters)| > 1 ==>
        captured == if old(selected) == Some(id) then characters else old(captured)
      ensures old(Valid()) ==> Valid()
    {
      if |characters| <= 1 {
        return Some(RosterFloorAlert);
      }
      if Valid() {
        RemoveByIdKeepsOne(characters, id);
      }
      characters := RemoveById(characters, id);
      if selected == Some(id) {
        selected := None;
        captured := characters;
      }
      showEditor := false;
      editing := None;
      alert := None;
    }

    /** `handleCancelEdit`: the editor closes and the draft is dropped. */
    method CancelEdit()
      modifies this`showEditor, this`editing, this`isAddingNew
      ensures !showEditor && editing == None && !isAddingNew
    {
      showEditor := false;
      editing := None;
      isAddingNew := false;
    }
  }
}
