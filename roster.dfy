/** The character records of the voice game and the pure list transforms that its
    handlers hand to `setCharacters`: committing an exchange to one transcript, appending
    a new character, replacing an edited one and removing one by id. */
module Roster {
  import opened Wrappers
  import JsText

  /** The author of a chat message. Transcripts hold only `User` and `Assistant`. */
  datatype Role = System | User | Assistant

  datatype Message = Message(role: Role, content: string)

  /** Screen position in percent. */
  datatype Position = Position(x: real, y: real)

  datatype Character = Character(
    id: string,
    name: string,
    personality: string,
    position: Position,
    conversation: seq<Message>,
    color: string,
    voice: string)

  const AdamVoice: string := "pNInz6obpgDQGcFmaJgB"

  /** The four characters the game starts with. */
  const InitialCharacters: seq<Character> := [
    Character("wizard", "Merlin the Wise",
      "You are Merlin, an ancient and wise wizard. You speak in a mystical way, often referencing magic, ancient knowledge, and cosmic forces. You are helpful but cryptic, giving advice through metaphors and riddles.",
      Position(20.0, 30.0), [], "bg-purple-600", AdamVoice),
    Character("warrior", "Sir Gareth",
      "You are Sir Gareth, a brave and honorable knight. You speak with confidence and honor, always ready for battle and adventure. You value courage, loyalty, and justice above all else.",
      Position(70.0, 40.0), [], "bg-red-600", "EXAVITQu4vr4xnSDxMaL"),
    Character("merchant", "Goldie the Trader",
      "You are Goldie, a clever merchant who loves making deals and talking about business. You are friendly but always looking for opportunities. You speak enthusiastically about trade, gold, and profitable ventures.",
      Position(45.0, 60.0), [], "bg-yellow-600", "ErXwobaYiN019PkySvjV"),
    Character("scholar", "Elena the Scholar",
      "You are Elena, a brilliant scholar and researcher. You love books, knowledge, and intellectual discussions. You speak precisely and are always eager to share fascinating facts and theories.",
      Position(25.0, 70.0), [], "bg-blue-600", "MF3mGyEYCl7XYWbV9V6O")
  ]

  predicate HasId(r: seq<Character>, id: string) {
    exists i :: 0 <= i < |r| && r[i].id == id
  }

  predicate UniqueIds(r: seq<Character>) {
    forall i, j :: 0 <= i < j < |r| ==> r[i].id != r[j].id
  }

  /** The starting roster has four characters with distinct ids. */
  lemma InitialCharactersUnique()
    ensures |InitialCharacters| == 4
    ensures UniqueIds(InitialCharacters)
  {
    var r := InitialCharacters;
    assert r[0].id[1] == 'i' && r[1].id[1] == 'a' && r[2].id[1] == 'e' && r[3].id[1] == 'c';
  }

  /** `characters.find(c => c.id === id)`: the first character with that id, if any. */
  function FindById(r: seq<Character>, id: string): (found: Option<Character>)
    ensures found.None? <==> !HasId(r, id)
    ensures found.Some? ==>
      exists k :: 0 <= k < |r| && r[k] == found.value && r[k].id == id &&
                  (forall j :: 0 <= j < k ==> r[j].id != id)
    decreases |r|
  {
    if |r| == 0 then None
    else if r[0].id == id then Some(r[0])
    else
      var rest := FindById(r[1..], id);
      assert HasId(r, id) ==> HasId(r[1..], id) by {
        if HasId(r, id) {
          var i :| 0 <= i < |r| && r[i].id == id;
          assert r[1..][i - 1].id == id;
        }
      }
      assert rest.Some? ==> exists k :: 0 <= k < |r| && r[k] == rest.value && r[k].id == id &&
                                      (forall j :: 0 <= j < k ==> r[j].id != id)
      by {
        if rest.Some? {
          var k :| 0 <= k < |r[1..]| && r[1..][k] == rest.value && r[1..][k].id == id &&
                   (forall j :: 0 <= j < k ==> r[1..][j].id != id);
          assert r[k + 1] == rest.value;
          assert forall j :: 0 <= j < k + 1 ==> r[j].id != id by {
            forall j | 0 <= j < k + 1 ensures r[j].id != id {
              if j > 0 { assert r[j] == r[1..][j - 1]; }
            }
          }
        }
      }
      rest
  }

  /** The character after one successful turn: the user's words, then the reply. */
  function WithExchange(c: Character, text: string, response: string): Character {
    c.(conversation := c.conversation + [Message(User, text), Message(Assistant, response)])
  }

  /** The commit at the end of a successful pipeline: every character with the id gets
      the exchange appended; the others are kept. */
  function RecordExchange(r: seq<Character>, id: string, text: string, response: string): (r': seq<Character>)
    ensures |r'| == |r|
    ensures forall i :: 0 <= i < |r| ==> r'[i].id == r[i].id
    ensures forall i :: 0 <= i < |r| && r[i].id == id ==>
      r'[i].conversation == r[i].conversation + [Message(User, text), Message(Assistant, response)] &&
      r'[i].(conversation := r[i].conversation) == r[i]
    ensures forall i :: 0 <= i < |r| && r[i].id != id ==> r'[i] == r[i]
  {
    seq(|r|, i requires 0 <= i < |r| => if r[i].id == id then WithExchange(r[i], text, response) else r[i])
  }

  /** With distinct ids, the commit changes exactly the selected character's transcript,
      by appending the user message and then the assistant message; its other fields and
      every other character stay as they were. */
  lemma RecordExchangeChangesOne(r: seq<Character>, k: nat, text: string, response: string)
    requires UniqueIds(r) && k < |r|
    ensures var r' := RecordExchange(r, r[k].id, text, response);
      && |r'| == |r|
      && r'[k].conversation == r[k].conversation + [Message(User, text), Message(Assistant, response)]
      && r'[k].(conversation := r[k].conversation) == r[k]
      && forall j :: 0 <= j < |r| && j != k ==> r'[j] == r[j]
  {
  }

  /** Committing for an id no character has changes nothing. */
  lemma RecordExchangeMissing(r: seq<Character>, id: string, text: string, response: string)
    requires !HasId(r, id)
    ensures RecordExchange(r, id, text, response) == r
  {
    var r' := RecordExchange(r, id, text, response);
    forall i | 0 <= i < |r| ensures r'[i] == r[i] {
      assert r[i].id != id;
    }
  }

  /** The commit keeps the ids, in order, so distinct ids stay distinct. */
  lemma RecordExchangeKeepsIds(r: seq<Character>, id: string, text: string, response: string)
    ensures var r' := RecordExchange(r, id, text, response);
      |r'| == |r| && (forall i :: 0 <= i < |r| ==> r'[i].id == r[i].id)
    ensures UniqueIds(r) ==> UniqueIds(RecordExchange(r, id, text, response))
  {
  }

  /** `[...prev, edited]`: the roster with a new character at the end. */
  function Append(r: seq<Character>, c: Character): (r': seq<Character>)
    ensures |r'| == |r| + 1 && r'[..|r|] == r && r'[|r|] == c
  {
    r + [c]
  }

  /** Appending a character whose id is fresh keeps the ids distinct. */
  lemma AppendKeepsUnique(r: seq<Character>, c: Character)
    ensures UniqueIds(r) && !HasId(r, c.id) ==> UniqueIds(Append(r, c))
  {
    var r' := Append(r, c);
    if UniqueIds(r) && !HasId(r, c.id) {
      forall i, j | 0 <= i < j < |r'| ensures r'[i].id != r'[j].id {
        if j == |r| { assert r'[i] == r[i]; }
      }
    }
  }

  /** `prev.map(c => c.id === edited.id ? edited : c)`. */
  function ReplaceById(r: seq<Character>, edited: Character): (r': seq<Character>)
    ensures |r'| == |r|
    ensures forall i :: 0 <= i < |r| ==> r'[i].id == r[i].id
    ensures forall i :: 0 <= i < |r| && r[i].id == edited.id ==> r'[i] == edited
    ensures forall i :: 0 <= i < |r| && r[i].id != edited.id ==> r'[i] == r[i]
  {
    seq(|r|, i requires 0 <= i < |r| => if r[i].id == edited.id then edited else r[i])
  }

  /** Saving an edit replaces exactly the entries with the edited id, keeps the length,
      the order and every id, and keeps the ids distinct. */
  lemma ReplaceByIdReplaces(r: seq<Character>, edited: Character)
    ensures var r' := ReplaceById(r, edited);
      && |r'| == |r|
      && (forall i :: 0 <= i < |r| ==> r'[i].id == r[i].id)
      && (forall i :: 0 <= i < |r| && r[i].id == edited.id ==> r'[i] == edited)
      && (forall i :: 0 <= i < |r| && r[i].id != edited.id ==> r'[i] == r[i])
    ensures UniqueIds(r) ==> UniqueIds(ReplaceById(r, edited))
  {
  }

  /** Saving an edit whose id is nowhere in the roster changes nothing. */
  lemma ReplaceByIdMissing(r: seq<Character>, edited: Character)
    requires !HasId(r, edited.id)
    ensures ReplaceById(r, edited) == r
  {
    var r' := ReplaceById(r, edited);
    forall i | 0 <= i < |r| ensures r'[i] == r[i] {
      assert r[i].id != edited.id;
    }
  }

  /** `prev.filter(c => c.id !== id)`: the characters without that id. */
  function RemoveById(r: seq<Character>, id: string): (r': seq<Character>)
    ensures |r'| <= |r|
    ensures forall c :: c in r' <==> c in r && c.id != id
    decreases |r|
  {
    if |r| == 0 then []
    else
      var rest := RemoveById(r[1..], id);
      assert forall c :: c in r <==> c == r[0] || c in r[1..] by {
        assert r == [r[0]] + r[1..];
      }
      if r[0].id == id then rest else [r[0]] + rest
  }

  /** Filtering works piecewise, so the kept characters stay in their original order. */
  lemma {:induction false} RemoveByIdConcat(a: seq<Character>, b: seq<Character>, id: string)
    ensures RemoveById(a + b, id) == RemoveById(a, id) + RemoveById(b, id)
    decreases |a|
  {
    if |a| == 0 {
      assert a + b == b;
    } else {
      assert (a + b)[0] == a[0];
      assert (a + b)[1..] == a[1..] + b;
      RemoveByIdConcat(a[1..], b, id);
    }
  }

  /** Removing an id that no character has changes nothing. */
  lemma {:induction false} RemoveByIdMissing(r: seq<Character>, id: string)
    requires !HasId(r, id)
    ensures RemoveById(r, id) == r
    decreases |r|
  {
    if |r| > 0 {
      assert forall i :: 0 <= i < |r[1..]| ==> r[1..][i].id != id by {
        forall i | 0 <= i < |r[1..]| ensures r[1..][i].id != id {
          assert r[1..][i] == r[i + 1];
        }
      }
      RemoveByIdMissing(r[1..], id);
      assert r[0].id != id;
      assert r == [r[0]] + r[1..];
    }
  }

  /** With distinct ids, removing a present id drops exactly that one character. */
  lemma {:induction false} RemoveByIdDropsOne(r: seq<Character>, k: nat)
    requires UniqueIds(r) && k < |r|
    ensures RemoveById(r, r[k].id) == r[..k] + r[k + 1..]
  {
    var id := r[k].id;
    assert r == r[..k] + ([r[k]] + r[k + 1..]);
    RemoveByIdConcat(r[..k], [r[k]] + r[k + 1..], id);
    RemoveByIdConcat([r[k]], r[k + 1..], id);
    assert forall i :: 0 <= i < k ==> r[..k][i].id != id by {
      forall i | 0 <= i < k ensures r[..k][i].id != id { assert r[..k][i] == r[i]; }
    }
    var tail := r[k + 1..];
    assert forall i :: 0 <= i < |tail| ==> tail[i].id != id by {
      forall i | 0 <= i < |tail| ensures tail[i].id != id {
        assert tail[i] == r[k + 1 + i];
      }
    }
    RemoveByIdMissing(r[..k], id);
    RemoveByIdMissing(r[k + 1..], id);
    assert RemoveById([r[k]], id) == [] by {
      assert [r[k]][1..] == [];
    }
  }

  /** With distinct ids, a roster of at least two keeps at least one character after a
      removal, and its ids stay distinct. */
  lemma RemoveByIdKeepsOne(r: seq<Character>, id: string)
    requires UniqueIds(r) && |r| >= 2
    ensures |RemoveById(r, id)| >= 1
    ensures UniqueIds(RemoveById(r, id))
  {
    if HasId(r, id) {
      var k :| 0 <= k < |r| && r[k].id == id;
      RemoveByIdDropsOne(r, k);
      DropOneUnique(r, k);
    } else {
      RemoveByIdMissing(r, id);
    }
  }

  /** Leaving one character out keeps the others' ids distinct. */
  lemma DropOneUnique(r: seq<Character>, k: nat)
    requires UniqueIds(r) && k < |r|
    ensures |r[..k] + r[k + 1..]| == |r| - 1
    ensures UniqueIds(r[..k] + r[k + 1..])
  {
    var r' := r[..k] + r[k + 1..];
    forall i | 0 <= i < |r'| ensures r'[i] == r[if i < k then i else i + 1] {
    }
    forall i, j | 0 <= i < j < |r'| ensures r'[i].id != r'[j].id {
      var i0 := if i < k then i else i + 1;
      var j0 := if j < k then j else j + 1;
      assert r'[i] == r[i0] && r'[j] == r[j0];
    }
  }

  /** Duplicate ids are why the last claim needs distinct ids: two characters that share
      the deleted id both go. */
  lemma RemoveByIdDuplicates(c: Character)
    ensures RemoveById([c, c], c.id) == []
  {
    assert [c, c][1..] == [c];
    assert [c][1..] == [];
  }

  /** `parseInt(value) || 0` for a position field: NaN (and zero) become 0. */
  function CoercePosition(input: string): (v: int)
    ensures JsText.ParseInt(input).None? ==> v == 0
    ensures JsText.ParseInt(input).Some? ==> v == JsText.ParseInt(input).value
    ensures JsText.AllWhiteSpace(input) ==> v == 0
  {
    match JsText.ParseInt(input)
    case Some(v) => v
    case None => 0
  }

  /** The X field's handler: the new X from the input, Y kept. */
  function WithX(p: Position, input: string): (q: Position)
    ensures q.y == p.y
    ensures JsText.ParseInt(input).None? ==> q.x == 0.0
    ensures JsText.ParseInt(input).Some? ==> q.x == JsText.ParseInt(input).value as real
  {
    p.(x := CoercePosition(input) as real)
  }

  /** The Y field's handler: the new Y from the input, X kept. */
  function WithY(p: Position, input: string): (q: Position)
    ensures q.x == p.x
    ensures JsText.ParseInt(input).None? ==> q.y == 0.0
    ensures JsText.ParseInt(input).Some? ==> q.y == JsText.ParseInt(input).value as real
  {
    p.(y := CoercePosition(input) as real)
  }

  /** A position typed as digits, optionally followed by a fraction or exponent, is read
      as its integer part; an empty or non-numeric field is read as 0. */
  lemma CoercePositionReads(n: nat, tail: string)
    requires tail == [] || (!('0' <= tail[0] <= '9') && tail[0] != 'x' && tail[0] != 'X')
    ensures CoercePosition(JsText.Decimal(n) + tail) == n
    ensures CoercePosition("-" + JsText.Decimal(n)) == -(n as int)
    ensures CoercePosition("") == 0
  {
    JsText.ParseIntDecimal(n, tail);
    JsText.ParseIntNegative(n);
  }
}
