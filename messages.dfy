/** `MessagesRepository`: the contents of `messages.json` seen as the object
    it parses to, a table from property names to message records. Reading
    and writing the file is abstracted away: the table is the state. */
module Messages {
  import opened Outcomes
  import opened EcmaParseInt

  /** A record `{ id, content }` as `create` stores it. */
  datatype Message = Message(id: int, content: string)

  /** The smallest and largest id `Math.floor(Math.random() * 999)` can give. */
  const MinId: int := 0
  const MaxId: int := 998

  /** The property name a numeric id becomes when used as an object key. */
  function Key(id: int): (k: string)
    ensures ParseInt(k) == Int(id)
  {
    ParseIntDecimal(id);
    IntToDecimal(id)
  }

  /** Distinct ids use distinct keys, so a write under one id never lands on another. */
  lemma KeyInjective(a: int, b: int)
    ensures Key(a) == Key(b) <==> a == b
  {
    IntToDecimalInjective(a, b);
  }

  class MessagesRepository {
    /** The parsed contents of the messages file. */
    var messages: map<string, Message>

    constructor (stored: map<string, Message>)
      ensures messages == stored
    {
      messages := stored;
    }

    /** `findOne(id)`: the entry stored under the property name `id`, or
        nothing (`undefined`) when there is none. */
    function FindOne(id: string): (r: Option<Message>)
      reads this
      ensures r.Some? <==> id in messages
      ensures r.Some? ==> r.value == messages[id]
    {
      if id in messages then Some(messages[id]) else None
    }

    /** `findAll()`: the whole stored table, unchanged; every entry it lists
        is what `findOne` returns for that key and nothing else is found. */
    function FindAll(): (r: map<string, Message>)
      reads this
      ensures forall id :: id in r <==> FindOne(id).Some?
      ensures forall id :: id in r ==> FindOne(id) == Some(r[id])
    {
      messages
    }

    /** `create(content)`: picks an id in 0..998, stores `{ id, content }`
        under that id's key (replacing any message already there), leaves
        every other key alone and returns the record it stored. */
    method Create(content: string) returns (m: Message)
      modifies this
      ensures MinId <= m.id <= MaxId && m.content == content
      ensures messages == old(messages)[Key(m.id) := m]
      ensures FindOne(Key(m.id)) == Some(m)
      ensures forall other :: other != Key(m.id) ==> FindOne(other) == old(FindOne(other))
    {
      var id :| MinId <= id <= MaxId;
      messages := messages[Key(id) := Message(id, content)];
      m := messages[Key(id)];
    }
  }

  /** After storing `m` under its key, any other id still finds what it found before. */
  lemma CreateKeepsOtherIds(before: map<string, Message>, m: Message, other: int)
    requires other != m.id
    ensures var after := before[Key(m.id) := m];
            && (Key(other) in after <==> Key(other) in before)
            && (Key(other) in before ==> after[Key(other)] == before[Key(other)])
  {
    KeyInjective(other, m.id);
  }

  /** Creating where a message with the chosen id already exists replaces it;
      the table does not grow. */
  lemma CreateOverwrites(before: map<string, Message>, m: Message)
    requires Key(m.id) in before
    ensures |before[Key(m.id) := m]| == |before|
    ensures before[Key(m.id) := m][Key(m.id)] == m
  {
  }

  /** A record is found only under its canonical decimal key: `"07"` parses
      to 7 but is a different property name from `"7"`. */
  lemma LeadingZeroIsAnotherKey(before: map<string, Message>, m: Message)
    requires m.id == 7 && "07" !in before
    ensures var after := before[Key(m.id) := m];
            && ParseInt("07") == Int(m.id)
            && "07" !in after
  {
    var s := "07";
    assert s[..1] == "0" && s[..1][..0] == [];
    assert DigitsValue(s, 10) == 7;
    ParseIntDigits(s);
    assert |Key(7)| == 1;
  }

  /** `GET /messages/:id`: NotFound "Message not found" exactly when no
      message is stored under `id`. */
  function GetMessage(repo: MessagesRepository, id: string): (r: Result<Message>)
    reads repo
    ensures r.Err? <==> id !in repo.messages
    ensures r.Err? ==> r.error == NotFound("Message not found")
    ensures r.Ok? ==> r.value == repo.messages[id]
  {
    match repo.FindOne(id)
    case None => Err(NotFound("Message not found"))
    case Some(m) => Ok(m)
  }
}
