/**
 * The server's reactor (EventLoop.hpp): it watches the two listening sockets and every
 * accepted client, turns each readable client's bytes into a queued message, keeps the two
 * connection registries up to date on the way, and, on its egress thread, sends queued text
 * messages to their receivers.
 *
 * The multiplexer is the set `watched` of descriptors.  What `accept`, `recv` and
 * `getpeername` return for a ready descriptor is part of each `Event`; an empty `data` is a
 * `recv` that returned 0.  Frames handed to `send` are logged in `sent`.  The reactor's pure
 * specification is `Dispatch` over a `LoopState`; the class is proved against it.
 */
module EventLoop {
  import opened Bytes
  import opened Wrappers
  import opened Channel
  import opened Framing
  import opened Messages
  import opened Layout
  import opened MQ
  import opened ConnectionMgr

  /** What one readiness report carries: the descriptor and what the calls on it return. */
  datatype Event = Event(fd: int, accepted: int, data: seq<Byte>, peer: Option<string>)

  /** The reactor's observable state. */
  datatype LoopState = LoopState(watched: set<int>, text: Registry, io: Registry, received: seq<Envelope>)

  datatype ParseError = UnknownPackType | ShortPayload

  /** The message kind each pack type announces. */
  function KindOf(ptype: U16): Option<MsgType>
  {
    if ptype == 1 then Some(USER) else if ptype == 2 then Some(TEXT) else if ptype == 3 then Some(FILE) else None
  }

  /**
   * `parsePack`: type 1, 2 or 3 casts the payload to the matching record; any other type is
   * "Unknown pack type".  A payload too short for its record is rejected.
   */
  function ParsePack(u: Unpacked): (r: Result<Payload, ParseError>)
    ensures KindOf(u.ptype).None? ==> r == Failure(UnknownPackType)
    ensures r.Success? ==> KindOf(u.ptype) == Some(TypeOf(r.value))
  {
    if u.ptype == 1 then
      if |u.data| < USER_SIZE then Failure(ShortPayload) else Success(User(UserOf(u.data)))
    else if u.ptype == 2 then
      if |u.data| < TEXT_SIZE then Failure(ShortPayload) else Success(Text(TextOf(u.data)))
    else if u.ptype == 3 then
      if !IsFileImage(u.data) then Failure(ShortPayload) else Success(File(FileOf(u.data)))
    else Failure(UnknownPackType)
  }

  /** The pack type each payload is sent under, and its image. */
  function PackOf(p: Payload): Unpacked
  {
    match p
    case User(u) => Unpacked(1, UserBytes(u))
    case Text(t) => Unpacked(2, TextBytes(t))
    case File(f) => Unpacked(3, FileBytes(f))
  }

  /** Parsing a record packed under its own type gives the record back. */
  lemma ParseOfPacked(p: Payload)
    ensures ParsePack(PackOf(p)) == Success(p)
  {
    match p
    case User(u) =>
      UserRoundTrip(u, []);
      assert UserBytes(u) + [] == UserBytes(u);
    case Text(t) =>
      TextRoundTrip(t, []);
      assert TextBytes(t) + [] == TextBytes(t);
    case File(f) =>
      FileRoundTrip(f, []);
      assert FileBytes(f) + [] == FileBytes(f);
  }

  /** `preprocessMessage`: the registry updates a message causes before it is queued. */
  function Preprocess(s: LoopState, fd: int, peer: Option<string>, p: Payload): LoopState
  {
    match p
    case User(u) =>
      var action := ActionOf(u.action);
      if action == Some(LOGIN) then s.(text := Emplaced(s.text, u.uid, fd, peer))
      else if action == Some(LOGOUT) then s.(text := WithOnline(s.text, u.uid, false))
      else if action == Some(HEARTBEAT) then s.(text := WithOnline(s.text, u.uid, true))
      else s
    case Text(_) => s
    case File(f) => s.(io := Emplaced(s.io, f.sender, fd, peer), watched := s.watched - {fd})
  }

  /** `cleanupClient`: stop watching `fd` and mark offline the text entry whose uid is the number `fd`. */
  function Cleanup(s: LoopState, fd: int): LoopState
  {
    s.(watched := s.watched - {fd}, text := if 0 <= fd < TWO32 then WithOnline(s.text, fd, false) else s.text)
  }

  /**
   * `handleClientData`: a failed `recv` cleans up; otherwise the bytes are decoded and parsed,
   * and a message that survives both is preprocessed and queued.  A decode or parse error
   * drops the bytes and leaves everything else as it was.
   */
  function AfterData(s: LoopState, fd: int, data: seq<Byte>, peer: Option<string>): LoopState
  {
    if data == [] then Cleanup(s, fd)
    else match Decode(data)
      case Failure(_) => s
      case Success(u) =>
        match ParsePack(u)
        case Failure(_) => s
        case Success(p) =>
          var t := Preprocess(s, fd, peer, p);
          t.(received := t.received + [Envelope(TypeOf(p), Some(p))])
  }

  /** `handleNewConnection`: an invalid accepted socket is ignored; a valid one is watched. */
  function Accepted(s: LoopState, client: int): LoopState
  {
    if client == INVALID_SOCKET then s else s.(watched := s.watched + {client})
  }

  /** One iteration of `run`'s inner loop: a listener accepts, any other descriptor has data. */
  function Dispatch(s: LoopState, msgFd: int, fileFd: int, e: Event): LoopState
  {
    if e.fd == msgFd || e.fd == fileFd then Accepted(s, e.accepted) else AfterData(s, e.fd, e.data, e.peer)
  }

  /** A batch of readiness reports handled in order. */
  function DispatchAll(s: LoopState, msgFd: int, fileFd: int, events: seq<Event>): LoopState
    decreases |events|
  {
    if events == [] then s
    else DispatchAll(Dispatch(s, msgFd, fileFd, events[0]), msgFd, fileFd, events[1..])
  }

  lemma {:induction false} DispatchAllSnoc(s: LoopState, msgFd: int, fileFd: int, events: seq<Event>, e: Event)
    ensures DispatchAll(s, msgFd, fileFd, events + [e]) == Dispatch(DispatchAll(s, msgFd, fileFd, events), msgFd, fileFd, e)
    decreases |events|
  {
    if events == [] {
      assert [e][1..] == [];
    } else {
      assert (events + [e])[1..] == events[1..] + [e];
      DispatchAllSnoc(Dispatch(s, msgFd, fileFd, events[0]), msgFd, fileFd, events[1..], e);
    }
  }

  lemma DispatchThree(s: LoopState, msgFd: int, fileFd: int, a: Event, b: Event, c: Event)
    ensures DispatchAll(s, msgFd, fileFd, [a, b, c])
      == Dispatch(Dispatch(Dispatch(s, msgFd, fileFd, a), msgFd, fileFd, b), msgFd, fileFd, c)
  {
    var s1 := Dispatch(s, msgFd, fileFd, a);
    var s2 := Dispatch(s1, msgFd, fileFd, b);
    assert [a, b, c][1..] == [b, c] && [b, c][1..] == [c] && [c][1..] == [];
    assert DispatchAll(s, msgFd, fileFd, [a, b, c]) == DispatchAll(s1, msgFd, fileFd, [b, c]);
    assert DispatchAll(s1, msgFd, fileFd, [b, c]) == DispatchAll(s2, msgFd, fileFd, [c]);
  }

  /**
   * The receive queue only grows, by at most one message per readiness report, and only by a
   * message whose bytes decoded and parsed: exactly that message, tagged with its kind.
   */
  lemma OnlyParsedMessagesQueued(s: LoopState, fd: int, data: seq<Byte>, peer: Option<string>)
    ensures var t := AfterData(s, fd, data, peer);
      && s.received <= t.received
      && |t.received| <= |s.received| + 1
      && (|t.received| == |s.received| + 1 <==>
            data != [] && Decode(data).Success? && ParsePack(Decode(data).value).Success?)
      && (|t.received| == |s.received| + 1 ==>
            var p := ParsePack(Decode(data).value).value;
            t.received[|s.received|] == Envelope(TypeOf(p), Some(p)))
  {
  }

  /** A decode or parse error drops the bytes and keeps the connection watched. */
  lemma BadBytesKeepConnection(s: LoopState, fd: int, data: seq<Byte>, peer: Option<string>)
    requires data != []
    requires Decode(data).Failure? || ParsePack(Decode(data).value).Failure?
    ensures AfterData(s, fd, data, peer) == s
  {
  }

  /** A LOGIN from a new uid registers the connection online; a FILE message hands the descriptor over. */
  lemma LoginAndFileHandoff(s: LoopState, fd: int, peer: Option<string>, u: UserData, f: FileData)
    ensures u.action == Tag(LOGIN) && u.uid !in s.text ==>
      Preprocess(s, fd, peer, User(u)).text[u.uid] == NetInfo(fd, true, RemoteIp(fd, peer))
    ensures u.action == Tag(LOGOUT) && u.uid in s.text ==> !Preprocess(s, fd, peer, User(u)).text[u.uid].online
    ensures u.action == Tag(REGISTER) ==> Preprocess(s, fd, peer, User(u)) == s
    ensures var t := Preprocess(s, fd, peer, File(f));
      fd !in t.watched && f.sender in t.io && t.text == s.text
  {
    TagRoundTrip(LOGIN, u.action);
    TagRoundTrip(LOGOUT, u.action);
    TagRoundTrip(REGISTER, u.action);
  }

  /**
   * A text message a client frames and sends arrives in the receive queue unchanged, and the
   * registries and the watched set are left alone.
   */
  lemma TextArrivesIntact(s: LoopState, fd: int, peer: Option<string>, t: TextData)
    ensures AfterData(s, fd, Frame(2, TextBytes(t)), peer)
      == s.(received := s.received + [Envelope(TEXT, Some(Text(t)))])
  {
    RoundTrip(2, TextBytes(t), []);
    assert Frame(2, TextBytes(t)) + [] == Frame(2, TextBytes(t));
    ParseOfPacked(Text(t));
  }

  /** A LOGIN a client frames and sends registers its connection and is queued unchanged. */
  lemma LoginArrives(s: LoopState, fd: int, peer: Option<string>, u: UserData)
    requires u.action == Tag(LOGIN)
    ensures AfterData(s, fd, Frame(1, UserBytes(u)), peer)
      == s.(text := Emplaced(s.text, u.uid, fd, peer), received := s.received + [Envelope(USER, Some(User(u)))])
  {
    RoundTrip(1, UserBytes(u), []);
    assert Frame(1, UserBytes(u)) + [] == Frame(1, UserBytes(u));
    ParseOfPacked(User(u));
    TagRoundTrip(LOGIN, u.action);
  }

  /** The frame the egress thread sends for a text message: the record's image as a type-2 pack. */
  function TextFrame(t: TextData): seq<Byte>
  {
    Frame(2, TextBytes(t))
  }

  /**
   * `sendMessages` for one queued message: only a text message goes out, to the socket the
   * text registry holds for its receiver (an unknown receiver yields the invalid socket, on
   * which `send` sends nothing); the descriptor 0 is skipped by the `getFd()` test.
   */
  function Egress(e: Envelope, text: Registry): seq<(int, seq<Byte>)>
  {
    if e.mtype == TEXT && e.data.Some? && e.data.value.Text? then
      var t := e.data.value.text;
      if t.receiver in text && text[t.receiver].socket != 0 && text[t.receiver].socket != INVALID_SOCKET
      then [(text[t.receiver].socket, TextFrame(t))]
      else []
    else []
  }

  /** Everything the egress thread sends while draining `queue`. */
  function EgressAll(queue: seq<Envelope>, text: Registry): seq<(int, seq<Byte>)>
    decreases |queue|
  {
    if queue == [] then [] else Egress(queue[0], text) + EgressAll(queue[1..], text)
  }

  lemma {:induction false} EgressAllSnoc(queue: seq<Envelope>, e: Envelope, text: Registry)
    ensures EgressAll(queue + [e], text) == EgressAll(queue, text) + Egress(e, text)
    decreases |queue|
  {
    if queue == [] {
      assert [e][1..] == [];
    } else {
      assert (queue + [e])[1..] == queue[1..] + [e];
      EgressAllSnoc(queue[1..], e, text);
    }
  }

  /**
   * What goes out is only ever text, to a registered receiver's socket, and it decodes and
   * parses back at the client as the very text message that was queued.
   */
  lemma EgressParsesBack(e: Envelope, text: Registry)
    ensures |Egress(e, text)| <= 1
    ensures Egress(e, text) != [] ==>
      && e.mtype == TEXT && e.data.Some? && e.data.value.Text?
      && var t := e.data.value.text;
         && t.receiver in text && Egress(e, text)[0].0 == text[t.receiver].socket
         && Decode(Egress(e, text)[0].1) == Success(Unpacked(2, TextBytes(t)))
         && ParsePack(Unpacked(2, TextBytes(t))) == Success(Text(t))
  {
    if Egress(e, text) != [] {
      var t := e.data.value.text;
      RoundTrip(2, TextBytes(t), []);
      assert TextFrame(t) + [] == TextFrame(t);
      ParseOfPacked(Text(t));
    }
  }

  class EventLoop {
    const msgFd: int
    const fileFd: int
    /** The singleton registries: chat connections and file-transfer connections. */
    const text: Connections
    const io: Connections
    const mq: MessageQueue
    var watched: set<int>
    var sent: seq<(int, seq<Byte>)>

    predicate Valid()
      reads this
    {
      text != io
    }

    function State(): LoopState
      reads this, text, io, mq
    {
      LoopState(watched, text.uidToNetInfo, io.uidToNetInfo, mq.receiveQueue)
    }

    /** `EventLoop()` followed by a successful `init`: both listeners are watched. */
    constructor (msgFd: int, fileFd: int, text: Connections, io: Connections, mq: MessageQueue)
      requires text != io
      ensures Valid() && watched == {msgFd, fileFd} && sent == []
      ensures this.msgFd == msgFd && this.fileFd == fileFd
      ensures this.text == text && this.io == io && this.mq == mq
    {
      this.msgFd, this.fileFd := msgFd, fileFd;
      this.text, this.io, this.mq := text, io, mq;
      watched, sent := {msgFd, fileFd}, [];
    }

    /** `run`: handle one batch of readiness reports in order. */
    method Run(events: seq<Event>)
      requires Valid()
      modifies this, text, io, mq
      ensures State() == DispatchAll(old(State()), msgFd, fileFd, events)
      ensures mq.sendQueue == old(mq.sendQueue) && sent == old(sent)
    {
      var i := 0;
      while i < |events|
        invariant i <= |events|
        invariant State() == DispatchAll(old(State()), msgFd, fileFd, events[..i])
        invariant mq.sendQueue == old(mq.sendQueue) && sent == old(sent)
      {
        var e := events[i];
        ghost var before := State();
        if e.fd == msgFd {
          HandleNewConnection(e.accepted);
        } else if e.fd == fileFd {
          HandleNewConnection(e.accepted);
        } else {
          HandleClientData(e.fd, e.data, e.peer);
        }
        assert State() == Dispatch(before, msgFd, fileFd, e);
        DispatchAllSnoc(old(State()), msgFd, fileFd, events[..i], e);
        assert events[..i + 1] == events[..i] + [e];
        i := i + 1;
      }
      assert events[..i] == events;
    }

    method HandleNewConnection(client: int)
      modifies this
      ensures State() == Accepted(old(State()), client)
      ensures sent == old(sent)
    {
      if client == INVALID_SOCKET {
        return;
      }
      watched := watched + {client};
    }

    method HandleClientData(fd: int, data: seq<Byte>, peer: Option<string>)
      requires Valid()
      modifies this, text, io, mq
      ensures State() == AfterData(old(State()), fd, data, peer)
      ensures mq.sendQueue == old(mq.sendQueue) && sent == old(sent)
    {
      if data == [] {
        CleanupClient(fd);
        return;
      }
      var decoded := Decode(data);
      if decoded.Failure? {
        return;
      }
      var parsed := ParsePack(decoded.value);
      if parsed.Failure? {
        return;
      }
      var msg := Message.Of(parsed.value);
      PreprocessMessage(fd, msg, peer);
      mq.PushToReceiveQueue(msg);
    }

    method PreprocessMessage(fd: int, msg: Message, peer: Option<string>)
      requires Valid() && msg.data.Some? && WellTagged(msg.Value())
      modifies this, text, io
      ensures State() == Preprocess(old(State()), fd, peer, msg.data.value)
      ensures sent == old(sent)
    {
      var p := msg.data.value;
      if msg.mtype == USER {
        var user := p.user;
        var action := ActionOf(user.action);
        if action == Some(LOGIN) {
          text.Add(user.uid, fd, peer);
        } else if action == Some(LOGOUT) {
          text.SetOnline(user.uid, false);
        } else if action == Some(HEARTBEAT) {
          text.SetOnline(user.uid, true);
        }
      } else if msg.mtype == FILE {
        var file := p.file;
        io.Add(file.sender, fd, peer);
        watched := watched - {fd};
      }
    }

    method CleanupClient(fd: int)
      requires Valid()
      modifies this, text
      ensures State() == Cleanup(old(State()), fd)
      ensures sent == old(sent)
    {
      watched := watched - {fd};
      if 0 <= fd < TWO32 {
        text.SetOnline(fd, false);
      }
    }

    /** One pass of `sendMessages`: pop a message if there is one and send it if it is text. */
    method SendMessagesStep()
      modifies this, mq
      ensures old(mq.sendQueue) == [] ==> mq.sendQueue == [] && sent == old(sent)
      ensures old(mq.sendQueue) != [] ==>
        && mq.sendQueue == old(mq.sendQueue)[1..]
        && sent == old(sent) + Egress(old(mq.sendQueue)[0], text.uidToNetInfo)
      ensures mq.receiveQueue == old(mq.receiveQueue) && watched == old(watched)
    {
      var empty := mq.IsSendQueueEmpty();
      if empty {
        return;
      }
      var msg := mq.PopFromSendQueue();
      if msg.mtype == TEXT && msg.data.Some? && msg.data.value.Text? {
        var t := msg.data.value.text;
        var clientSocket := text.GetSocket(t.receiver);
        if clientSocket != 0 {
          if clientSocket != INVALID_SOCKET {
            sent := sent + [(clientSocket, TextFrame(t))];
          }
        }
      }
    }

    /** `sendMessages` until the send queue is empty. */
    method DrainSendQueue()
      modifies this, mq
      ensures mq.sendQueue == [] && sent == old(sent) + EgressAll(old(mq.sendQueue), text.uidToNetInfo)
      ensures mq.receiveQueue == old(mq.receiveQueue) && watched == old(watched)
    {
      ghost var done: seq<Envelope> := [];
      while mq.sendQueue != []
        invariant done + mq.sendQueue == old(mq.sendQueue)
        invariant sent == old(sent) + EgressAll(done, text.uidToNetInfo)
        invariant mq.receiveQueue == old(mq.receiveQueue) && watched == old(watched)
        decreases |mq.sendQueue|
      {
        var head := mq.sendQueue[0];
        SendMessagesStep();
        EgressAllSnoc(done, head, text.uidToNetInfo);
        assert done + [head] + mq.sendQueue == done + ([head] + mq.sendQueue);
        done := done + [head];
      }
      assert done == old(mq.sendQueue);
    }
  }

  /**
   * A client logs in on a fresh connection and then sends a text message: the registry holds
   * the user online on that descriptor, and both messages are queued in order.
   */
  method LoginThenText(u: UserData, t: TextData, fd: int)
    returns (registered: NetInfo, queued: seq<Envelope>)
    requires u.action == Tag(LOGIN) && fd != 5 && fd != 6 && fd != INVALID_SOCKET
    ensures registered == NetInfo(fd, true, "10.0.0.7")
    ensures queued == [Envelope(USER, Some(User(u))), Envelope(TEXT, Some(Text(t)))]
  {
    var text := new Connections();
    var io := new Connections();
    var mq := new MessageQueue();
    var loop := new EventLoop(5, 6, text, io, mq);
    var peer := Some("10.0.0.7");
    var events := [Event(5, fd, [], None), Event(fd, 0, Frame(1, UserBytes(u)), peer),
                   Event(fd, 0, TextFrame(t), peer)];
    ghost var s0 := loop.State();
    ghost var s1 := Accepted(s0, fd);
    ghost var s2 := s1.(text := Emplaced(s1.text, u.uid, fd, peer), received := s1.received + [Envelope(USER, Some(User(u)))]);
    ghost var s3 := s2.(received := s2.received + [Envelope(TEXT, Some(Text(t)))]);
    LoginArrives(s1, fd, peer, u);
    TextArrivesIntact(s2, fd, peer, t);
    DispatchThree(s0, 5, 6, events[0], events[1], events[2]);
    assert events == [events[0], events[1], events[2]];
    assert DispatchAll(s0, 5, 6, events) == s3;
    loop.Run(events);
    registered := text.uidToNetInfo[u.uid];
    queued := mq.receiveQueue;
  }
}
