/**
 * The server's router (server/MsgHandler.hpp): it takes each received message off the
 * receive queue, broadcasts a text message to every other online user through the send
 * queue, and turns a file request into an upload or download task on the thread pool.  A
 * finished upload is announced to the file's receiver with a text notification.
 *
 * The registries are the chat and file-transfer `Connections`; iterating over a snapshot of
 * the chat registry visits its uids in no particular order, which the model leaves open.
 */
module MsgHandler {
  import opened Bytes
  import opened Wrappers
  import opened Channel
  import opened Messages
  import opened MQ
  import opened ConnectionMgr
  import opened FileUtils
  import opened ThreadPool
  import FileTransfer

  /** The work `handleFile` hands to the pool: the client's descriptor and its request. */
  datatype FileTask = Upload(fd: int, file: FileData) | Download(fd: int, file: FileData)

  // -----------------------------------------------------------------------------------------------
  // Broadcast

  /**
   * Who receives a broadcast of a text from `sender`: every online entry except the sender's
   * own, and nobody else.
   */
  function Eligible(m: Registry, sender: U32): (r: set<U32>)
    ensures sender !in r
    ensures forall u :: u in r <==> u in m && m[u].online && u != sender
  {
    set u | u in m && m[u].online && u != sender
  }

  /**
   * The test as written: an entry is skipped when its descriptor (the field the code calls
   * `client_fd`) equals the sender's uid, so descriptors and uids are compared.
   */
  function EligibleAsWritten(m: Registry, sender: U32): (r: set<U32>)
    ensures forall u :: u in r ==> u in m && m[u].online
  {
    set u | u in m && m[u].online && m[u].socket != sender
  }

  /**
   * Where the two tests part: the sender (uid 7, on descriptor 9) gets its own message back,
   * and another user (uid 3) whose descriptor happens to be 7 gets nothing.
   */
  lemma SenderEchoedAsWritten()
    ensures var m := map[7 := NetInfo(9, true, "a"), 3 := NetInfo(7, true, "b")];
      && 7 in EligibleAsWritten(m, 7) && 7 !in Eligible(m, 7)
      && 3 !in EligibleAsWritten(m, 7) && 3 in Eligible(m, 7)
  {
    var m := map[7 := NetInfo(9, true, "a"), 3 := NetInfo(7, true, "b")];
    assert m[7].socket != 7 && m[3].socket == 7;
  }

  /** One broadcast copy: the same text, addressed to `uid`. */
  function CopyFor(t: TextData, uid: U32): Envelope
  {
    Envelope(TEXT, Some(Text(t.(receiver := uid))))
  }

  function Copies(t: TextData, receivers: seq<U32>): (r: seq<Envelope>)
    ensures |r| == |receivers|
    ensures forall i :: 0 <= i < |receivers| ==> r[i] == CopyFor(t, receivers[i])
    decreases |receivers|
  {
    if receivers == [] then [] else Copies(t, receivers[..|receivers| - 1]) + [CopyFor(t, receivers[|receivers| - 1])]
  }

  /** `receivers` lists every uid of `s` once and nothing else. */
  ghost predicate Enumerates(receivers: seq<U32>, s: set<U32>)
  {
    multiset(receivers) == multiset(s)
  }

  /** One copy more is the list of copies for one receiver more. */
  lemma CopiesSnoc(queue: seq<Envelope>, t: TextData, receivers: seq<U32>, uid: U32)
    ensures queue + Copies(t, receivers) + [CopyFor(t, uid)] == queue + Copies(t, receivers + [uid])
  {
    assert (receivers + [uid])[..|receivers|] == receivers;
  }

  /**
   * Visiting one more uid of the snapshot: `receivers` still lists, once each, the eligible
   * uids visited so far.
   */
  lemma VisitStep(receivers: seq<U32>, pending: set<U32>, visited: set<U32>, eligible: set<U32>, uid: U32)
    requires uid in pending && pending !! visited && Enumerates(receivers, visited * eligible)
    ensures pending - {uid} !! visited + {uid}
    ensures (pending - {uid}) + (visited + {uid}) == pending + visited
    ensures Enumerates(if uid in eligible then receivers + [uid] else receivers, (visited + {uid}) * eligible)
  {
    if uid in eligible {
      assert (visited + {uid}) * eligible == visited * eligible + {uid};
      assert multiset(visited * eligible + {uid}) == multiset(visited * eligible) + multiset{uid};
    } else {
      assert (visited + {uid}) * eligible == visited * eligible;
    }
  }

  /** A list of the uids of a one-element set is that element alone. */
  lemma OnlyReceiver(receivers: seq<U32>, uid: U32)
    requires Enumerates(receivers, {uid})
    ensures receivers == [uid]
  {
    assert |receivers| == |multiset(receivers)| == 1;
    assert receivers[0] in multiset(receivers);
  }

  // -----------------------------------------------------------------------------------------------
  // Files

  /** The job `handleFile` schedules, if the sender has a file connection. */
  function TaskFor(f: FileData, io: Registry): (r: Option<FileTask>)
    ensures r.Some? <==> f.sender in io && io[f.sender].socket != INVALID_SOCKET
    ensures r.Some? ==> r.value.file == f && r.value.fd == io[f.sender].socket
    ensures r.Some? ==> (r.value.Upload? <==> f.action == UPLOAD)
  {
    if f.sender in io && io[f.sender].socket != INVALID_SOCKET then
      var fd := io[f.sender].socket;
      Some(if f.action == UPLOAD then Upload(fd, f) else Download(fd, f))
    else None
  }

  /** `filename.data()` read as a C string: the bytes before the first NUL. */
  function CBytes(b: seq<Byte>): (r: seq<Byte>)
    ensures r <= b && 0 !in r
    ensures |r| < |b| ==> b[|r|] == 0
    decreases |b|
  {
    if b == [] || b[0] == 0 then [] else [b[0]] + CBytes(b[1..])
  }

  /** Reading a C string back from text followed by a NUL gives exactly that text. */
  lemma {:induction false} CBytesOfTerminated(text: seq<Byte>, rest: seq<Byte>)
    requires 0 !in text
    ensures CBytes(text + [0] + rest) == text
    decreases |text|
  {
    if text != [] {
      assert (text + [0] + rest)[1..] == text[1..] + [0] + rest;
      CBytesOfTerminated(text[1..], rest);
    }
  }

  function CString(b: seq<Byte>): string
  {
    var c := CBytes(b);
    seq(|c|, i requires 0 <= i < |c| => c[i] as char)
  }

  /** `ostream << uint64_t`: decimal digits, no leading zero. */
  function Decimal(n: nat): (r: seq<Byte>)
    ensures |r| >= 1 && r[0] != 0
    ensures n > 0 ==> r[0] != 0x30
    ensures forall i :: 0 <= i < |r| ==> 0x30 <= r[i] <= 0x39
    decreases n
  {
    if n < 10 then [0x30 + n] else Decimal(n / 10) + [0x30 + n % 10]
  }

  function DigitsValue(ds: seq<Byte>): nat
    requires forall i :: 0 <= i < |ds| ==> 0x30 <= ds[i] <= 0x39
    decreases |ds|
  {
    if ds == [] then 0 else DigitsValue(ds[..|ds| - 1]) * 10 + (ds[|ds| - 1] - 0x30)
  }

  /** The digits read back as the number. */
  lemma {:induction false} DecimalRoundTrip(n: nat)
    ensures DigitsValue(Decimal(n)) == n
    decreases n
  {
    if n >= 10 {
      DecimalRoundTrip(n / 10);
      var d := Decimal(n);
      assert d[..|d| - 1] == Decimal(n / 10);
    }
  }

  /** "[文件] " in UTF-8. */
  const FILE_TAG: seq<Byte> := [0x5B, 0xE6, 0x96, 0x87, 0xE4, 0xBB, 0xB6, 0x5D, 0x20]
  /** " (" */
  const OPEN_PAREN: seq<Byte> := [0x20, 0x28]
  /** "字节)" in UTF-8. */
  const BYTES_SUFFIX: seq<Byte> := [0xE5, 0xAD, 0x97, 0xE8, 0x8A, 0x82, 0x29]

  /** What `sendFileNotification` writes into its string stream. */
  function NotificationText(f: FileData): seq<Byte>
  {
    FILE_TAG + CBytes(f.filename) + OPEN_PAREN + Decimal(f.filesize) + BYTES_SUFFIX
  }

  /** `ss.read(content, 511)` into zeroed storage: at most 511 bytes, the rest NUL. */
  function Padded(text: seq<Byte>): Content
  {
    var k := Min(|text|, CONTENT_CAPACITY - 1);
    text[..k] + seq(CONTENT_CAPACITY - k, _ => 0)
  }

  function Notification(f: FileData): TextData
  {
    TextData(f.sender, f.receiver, Padded(NotificationText(f)))
  }

  /**
   * The notification is addressed like the file, and its content read as a C string is the
   * announcement text, cut to 511 bytes.
   */
  lemma NotificationReadsBack(f: FileData)
    ensures var n := Notification(f); var text := NotificationText(f);
      && n.sender == f.sender && n.receiver == f.receiver
      && n.content[CONTENT_CAPACITY - 1] == 0
      && CBytes(n.content) == text[..Min(|text|, CONTENT_CAPACITY - 1)]
  {
    var text := NotificationText(f);
    var name := CBytes(f.filename);
    var digits := Decimal(f.filesize);
    assert 0 !in text by {
      forall i | 0 <= i < |text|
        ensures text[i] != 0
      {
        if i < |FILE_TAG| {
        } else if i < |FILE_TAG| + |name| {
          assert text[i] == name[i - |FILE_TAG|];
        } else if i < |FILE_TAG| + |name| + |OPEN_PAREN| {
        } else if i < |FILE_TAG| + |name| + |OPEN_PAREN| + |digits| {
          assert text[i] == digits[i - |FILE_TAG| - |name| - |OPEN_PAREN|];
        }
      }
    }
    var k := Min(|text|, CONTENT_CAPACITY - 1);
    var content := Padded(text);
    assert content == text[..k] + [0] + seq(CONTENT_CAPACITY - k - 1, _ => 0);
    CBytesOfTerminated(text[..k], seq(CONTENT_CAPACITY - k - 1, _ => 0));
  }

  class MsgHandler {
    const mq: MessageQueue
    const text: Connections
    const io: Connections
    const pool: ThreadPool<FileTask>

    constructor (mq: MessageQueue, text: Connections, io: Connections, pool: ThreadPool<FileTask>)
      ensures this.mq == mq && this.text == text && this.io == io && this.pool == pool
    {
      this.mq, this.text, this.io, this.pool := mq, text, io, pool;
    }

    /**
     * One iteration of `processMessages`: pop the oldest received message; a text is
     * broadcast, a file request is dispatched, anything else is dropped.
     */
    method ProcessOne() returns (ghost receivers: seq<U32>)
      requires mq.receiveQueue != []
      modifies mq, pool
      ensures mq.receiveQueue == old(mq.receiveQueue)[1..]
      ensures var e := old(mq.receiveQueue)[0];
        if e.mtype == TEXT && e.data.Some? && e.data.value.Text? then
          && mq.sendQueue == old(mq.sendQueue) + Copies(e.data.value.text, receivers)
          && Enumerates(receivers, Eligible(text.uidToNetInfo, e.data.value.text.sender))
          && pool.tasks == old(pool.tasks)
        else if e.mtype == FILE && e.data.Some? && e.data.value.File? then
          && mq.sendQueue == old(mq.sendQueue)
          && pool.tasks == old(pool.tasks) +
               (var task := TaskFor(e.data.value.file, io.uidToNetInfo);
                if old(pool.stop) || task.None? then [] else [task.value])
        else
          mq.sendQueue == old(mq.sendQueue) && pool.tasks == old(pool.tasks)
    {
      receivers := [];
      var msg := mq.PopFromReceiveQueue();
      if msg.mtype == TEXT && msg.data.Some? && msg.data.value.Text? {
        receivers := HandleText(msg.data.value.text);
      } else if msg.mtype == FILE && msg.data.Some? && msg.data.value.File? {
        HandleFile(msg.data.value.file);
      }
    }

    /**
     * `handleText`: over a snapshot of the chat registry, one copy per eligible uid, each
     * addressed to that uid, pushed in the order the snapshot is visited (`receivers`).
     */
    method HandleText(t: TextData) returns (ghost receivers: seq<U32>)
      modifies mq
      ensures mq.sendQueue == old(mq.sendQueue) + Copies(t, receivers)
      ensures Enumerates(receivers, Eligible(text.uidToNetInfo, t.sender))
      ensures mq.receiveQueue == old(mq.receiveQueue)
    {
      var connections := text.GetConnections();
      var pending := connections.Keys;
      ghost var eligible := Eligible(connections, t.sender);
      ghost var visited: set<U32> := {};
      receivers := [];
      while pending != {}
        invariant pending !! visited && pending + visited == connections.Keys
        invariant mq.sendQueue == old(mq.sendQueue) + Copies(t, receivers)
        invariant Enumerates(receivers, visited * eligible)
        invariant mq.receiveQueue == old(mq.receiveQueue)
        decreases pending
      {
        var uid :| uid in pending;
        var info := connections[uid];
        VisitStep(receivers, pending, visited, eligible, uid);
        if uid != t.sender && info.online {
          var broadcast := new Message.OfText(t.(receiver := uid));
          mq.PushToSendQueue(broadcast);
          CopiesSnoc(old(mq.sendQueue), t, receivers, uid);
          receivers := receivers + [uid];
        }
        pending := pending - {uid};
        visited := visited + {uid};
      }
      assert visited * eligible == eligible;
    }

    /**
     * `handleFile`: look up the sender's file connection; without one nothing is scheduled,
     * otherwise one upload or one download task is enqueued according to the request.
     */
    method HandleFile(f: FileData)
      modifies pool
      ensures pool.tasks == old(pool.tasks) +
        (var task := TaskFor(f, io.uidToNetInfo); if old(pool.stop) || task.None? then [] else [task.value])
    {
      var fd := io.GetSocket(f.sender);
      if fd == INVALID_SOCKET {
        return;
      }
      if f.action == UPLOAD {
        var ok := pool.Enqueue(Upload(fd, f));
      } else {
        var ok := pool.Enqueue(Download(fd, f));
      }
    }

    /**
     * `handleFileUpload`: receive the named file on the client's socket (`socket`, whose
     * descriptor is `fd`) and, only if that succeeds, queue the notification.  `headerSegment`
     * and `consumed` are what the receive read: the size header's segment, then the content.
     */
    method HandleFileUpload(fd: int, f: FileData, socket: Socket, disk: Disk)
      returns (ok: bool, ghost headerSegment: seq<Byte>, ghost consumed: seq<Byte>)
      requires socket.fd == fd
      modifies mq, socket, disk
      ensures mq.sendQueue == old(mq.sendQueue) + (if ok then [Envelope(TEXT, Some(Text(Notification(f))))] else [])
      ensures mq.receiveQueue == old(mq.receiveQueue)
      ensures var path := Joined([FileTransfer.DEFAULT_REPO_PATH, CString(f.filename)]);
        ok ==>
          && path in disk.files && headerSegment != []
          && |disk.files[path]| == FromSizeHeader(FileTransfer.HeaderBytes(headerSegment))
          && |disk.files[path]| <= |consumed| && disk.files[path] == consumed[..|disk.files[path]|]
      ensures var path := Joined([FileTransfer.DEFAULT_REPO_PATH, CString(f.filename)]);
        path in old(disk.unwritable) ==> !ok && disk.files == old(disk.files)
      ensures var path := Joined([FileTransfer.DEFAULT_REPO_PATH, CString(f.filename)]);
        path !in old(disk.unwritable) ==>
          Flatten(old(socket.inbox)) == headerSegment + consumed + Flatten(socket.inbox)
      ensures var path := Joined([FileTransfer.DEFAULT_REPO_PATH, CString(f.filename)]);
        !ok && path !in old(disk.unwritable) && Gapless(old(socket.inbox)) && fd != INVALID_SOCKET ==>
          || old(socket.inbox) == []
          || (&& headerSegment != []
              && |Flatten(old(socket.inbox))| < |headerSegment| + FromSizeHeader(FileTransfer.HeaderBytes(headerSegment)))
    {
      var transfer := new FileTransfer.FileTransfer(socket, disk);
      var fileName := CString(f.filename);
      ok, headerSegment, consumed := transfer.ReceiveFile(fileName);
      if !ok {
        return;
      }
      SendFileNotification(f);
    }

    /** `handleFileDownload`: send the named file on the client's socket; nothing is queued. */
    method HandleFileDownload(fd: int, f: FileData, socket: Socket, disk: Disk) returns (ok: bool)
      requires socket.fd == fd && disk.Bounded()
      modifies socket
      ensures Joined([FileTransfer.DEFAULT_REPO_PATH, CString(f.filename)]) !in disk.files ==>
        !ok && socket.wire == old(socket.wire)
      ensures fd == INVALID_SOCKET ==> !ok
      ensures socket.inbox == old(socket.inbox)
    {
      var transfer := new FileTransfer.FileTransfer(socket, disk);
      var fileName := CString(f.filename);
      ghost var h;
      ok, h := transfer.SendFile(fileName);
    }

    /** `sendFileNotification`: one text from the file's sender to its receiver. */
    method SendFileNotification(f: FileData)
      modifies mq
      ensures mq.sendQueue == old(mq.sendQueue) + [Envelope(TEXT, Some(Text(Notification(f))))]
      ensures mq.receiveQueue == old(mq.receiveQueue)
    {
      var notification := new Message.OfText(Notification(f));
      mq.PushToSendQueue(notification);
    }
  }

  /** A chat registry with users 1, 2 and 3, of whom 3 has gone offline. */
  method ThreeUsersOneOffline() returns (text: Connections)
    ensures fresh(text) && Eligible(text.uidToNetInfo, 1) == {2}
  {
    text := new Connections();
    text.Add(1, 11, None);
    text.Add(2, 12, None);
    text.Add(3, 13, None);
    text.SetOnline(3, false);
    ghost var m := text.uidToNetInfo;
    assert m.Keys == {1, 2, 3} && m[2].online && !m[3].online;
    assert Eligible(m, 1) == {2} by {
      assert 2 in Eligible(m, 1);
      forall u | u in Eligible(m, 1)
        ensures u == 2
      {
      }
    }
  }

  /**
   * Three users, two online: a text from one of them is queued once for the other online user
   * and for nobody else.
   */
  method BroadcastReachesOthers(t: TextData) returns (queued: seq<Envelope>)
    requires t.sender == 1
    ensures queued == [CopyFor(t, 2)]
  {
    var mq := new MessageQueue();
    var text := ThreeUsersOneOffline();
    var io := new Connections();
    var pool := new ThreadPool<FileTask>(1, 2);
    var handler := new MsgHandler(mq, text, io, pool);
    var receivers := handler.HandleText(t);
    OnlyReceiver(receivers, 2);
    queued := mq.sendQueue;
  }
}
