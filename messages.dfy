/**
 * The server's message model (server/Message.hpp): three fixed-layout payload records and a
 * move-only `Message` that owns one of them behind a type tag.
 *
 * The `unique_ptr<void>` that owns the payload is an `Option<Payload>`: `None` is the null
 * pointer a move leaves behind.  The character arrays are byte sequences of the declared
 * capacity.  `UserData.action` is kept as the raw byte that arrives on the wire (the enum's
 * underlying `uint8_t`), since a received record may carry any value there.
 */
module Messages {
  import opened Bytes
  import opened Wrappers

  const NAME_CAPACITY: nat := 32
  const CONTENT_CAPACITY: nat := 512
  const FILENAME_CAPACITY: nat := 256

  type Name = s: seq<Byte> | |s| == NAME_CAPACITY witness seq(32, _ => 0)
  type Content = s: seq<Byte> | |s| == CONTENT_CAPACITY witness seq(512, _ => 0)
  type FileName = s: seq<Byte> | |s| == FILENAME_CAPACITY witness seq(256, _ => 0)

  datatype UserAction = HEARTBEAT | LOGIN | LOGOUT | REGISTER

  /** The enumerators' values. */
  function Tag(a: UserAction): (t: Byte)
    ensures t < 4
  {
    match a
    case HEARTBEAT => 0
    case LOGIN => 1
    case LOGOUT => 2
    case REGISTER => 3
  }

  /** The enumerator a tag byte names, if any. */
  function ActionOf(t: Byte): (a: Option<UserAction>)
    ensures a.Some? <==> t < 4
  {
    if t == 0 then Some(HEARTBEAT)
    else if t == 1 then Some(LOGIN)
    else if t == 2 then Some(LOGOUT)
    else if t == 3 then Some(REGISTER)
    else None
  }

  /** The four tags are distinct and name their enumerators. */
  lemma TagRoundTrip(a: UserAction, t: Byte)
    ensures ActionOf(Tag(a)) == Some(a)
    ensures ActionOf(t).Some? ==> Tag(ActionOf(t).value) == t
  {
  }

  datatype UserData = UserData(uid: U32, username: Name, password: Name, action: Byte)

  datatype TextData = TextData(sender: U32, receiver: U32, content: Content)

  /**
   * `FileData` as server/MsgHandler.hpp reads it: the record the header declares plus the
   * `action` field that the handler consults.
   */
  datatype FileData = FileData(sender: U32, receiver: U32, filename: FileName, filesize: U64, action: FileAction)

  datatype FileAction = UPLOAD | DOWNLOAD

  datatype Payload = User(user: UserData) | Text(text: TextData) | File(file: FileData)

  datatype MsgType = USER | TEXT | FILE

  /** The tag that goes with each kind of payload. */
  function TypeOf(p: Payload): MsgType
  {
    match p
    case User(_) => USER
    case Text(_) => TEXT
    case File(_) => FILE
  }

  /** The observable state of a `Message`: its tag and what its pointer owns. */
  datatype Envelope = Envelope(mtype: MsgType, data: Option<Payload>)

  /** A tag that matches the payload it carries, as every tagged constructor leaves it. */
  predicate WellTagged(e: Envelope)
  {
    e.data.Some? && e.mtype == TypeOf(e.data.value)
  }

  class Message {
    var mtype: MsgType
    var data: Option<Payload>

    function Value(): Envelope
      reads this
    {
      Envelope(mtype, data)
    }

    constructor OfUser(user: UserData)
      ensures mtype == USER && data == Some(User(user))
    {
      mtype, data := USER, Some(User(user));
    }

    constructor OfText(text: TextData)
      ensures mtype == TEXT && data == Some(Text(text))
    {
      mtype, data := TEXT, Some(Text(text));
    }

    constructor OfFile(file: FileData)
      ensures mtype == FILE && data == Some(File(file))
    {
      mtype, data := FILE, Some(File(file));
    }

    /** Overload resolution among the three tagged constructors. */
    static method Of(p: Payload) returns (m: Message)
      ensures fresh(m) && WellTagged(m.Value()) && m.data == Some(p)
    {
      if p.User? {
        m := new Message.OfUser(p.user);
      } else if p.Text? {
        m := new Message.OfText(p.text);
      } else {
        m := new Message.OfFile(p.file);
      }
    }

    /** The move constructor: takes over `other`'s tag and payload and resets `other`. */
    constructor Move(other: Message)
      modifies other
      ensures mtype == old(other.mtype) && data == old(other.data)
      ensures other.mtype == USER && other.data == None
    {
      mtype, data := other.mtype, other.data;
      new;
      other.mtype, other.data := USER, None;
    }

    /** The move constructor applied to a queued element that is destroyed right after. */
    constructor FromValue(e: Envelope)
      ensures Value() == e
    {
      mtype, data := e.mtype, e.data;
    }

    /** Move assignment; assigning a message to itself changes nothing. */
    method MoveAssign(other: Message)
      modifies this, other
      ensures other == this ==> Value() == old(Value())
      ensures other != this ==>
        && Value() == old(other.Value())
        && other.mtype == USER && other.data == None
    {
      if this != other {
        mtype := other.mtype;
        data := other.data;
        other.mtype := USER;
        other.data := None;
      }
    }
  }

  /**
   * A move hands the payload over whole: afterwards exactly one of the two messages owns it,
   * the destination, and the moved-from message is an untagged shell.
   */
  method MoveTransfersOwnership(p: Payload) returns (src: Message, dst: Message)
    ensures dst.data == Some(p) && WellTagged(dst.Value())
    ensures src.data == None && src.mtype == USER
  {
    src := Message.Of(p);
    dst := new Message.Move(src);
  }
}
