/**
 * The acknowledged packet stream of IMClientConsole/StreamTransfer.hpp, over the byte-stream
 * socket of module Channel.  Every `recv` of the source is handed a vector of a fixed size (4
 * bytes for a sequence number or a signal, 8 for a size, `CHUNK_SIZE` for data), and the model
 * reads at most that many bytes per call.
 *
 * A packet is a 4-byte big-endian sequence number followed by its data; the receiver answers
 * each packet it reads with that same 4-byte sequence number as its acknowledgement.
 */
module StreamTransfer {
  import opened Wrappers
  import opened Bytes
  import opened Channel

  const MAX_RETRIES: nat := 3
  const ACK_SIZE: nat := 4
  const READY_SIGNAL: U32 := 0xFFFF_FFFF
  const CHUNK_SIZE: nat := 8 * 1024

  /** The bytes `sendPacket` hands to the socket for `data` numbered `seqNo`. */
  function Packet(seqNo: U32, data: seq<Byte>): (p: seq<Byte>)
    ensures |p| == ACK_SIZE + |data|
    ensures p[..ACK_SIZE] == BE32(seqNo) && p[ACK_SIZE..] == data
  {
    BE32(seqNo) + data
  }

  /** The sequence number heading a packet reads back as the number it was built with. */
  lemma PacketHeaderRoundTrip(seqNo: U32, data: seq<Byte>)
    ensures FromBE32(Packet(seqNo, data)[..ACK_SIZE]) == seqNo
  {
    BE32RoundTrip(seqNo);
  }

  /** A 4-byte acknowledgement matches `expected` exactly when it is `expected`'s encoding. */
  lemma AckMatches(ack: seq<Byte>, expected: U32)
    requires |ack| == ACK_SIZE
    ensures FromBE32(ack) == expected <==> ack == BE32(expected)
  {
    FromBE32Injective(ack);
    BE32RoundTrip(expected);
  }

  /** `s` ends with `tail`. */
  predicate EndsWith(s: seq<Byte>, tail: seq<Byte>)
  {
    |tail| <= |s| && s[|s| - |tail|..] == tail
  }

  lemma EndsWithAppend(a: seq<Byte>, b: seq<Byte>, tail: seq<Byte>)
    requires EndsWith(b, tail)
    ensures EndsWith(a + b, tail)
  {
    assert (a + b)[|a + b| - |tail|..] == b[|b| - |tail|..];
  }

  lemma Regroup(a: seq<Byte>, b: seq<Byte>, c: seq<Byte>)
    ensures a + (b + c) == (a + b) + c
  {
  }

  lemma PrefixExtends(a: seq<Byte>, b: seq<Byte>, c: seq<Byte>)
    requires a <= b
    ensures a <= b + c
  {
    assert (b + c)[..|a|] == b[..|a|];
  }

  /**
   * A scripted socket on which the receiving handshake goes through: it is open, takes the
   * whole ready signal in its first `send`, delivers exactly the ready signal in its first
   * segment and at least 8 bytes in the next.
   */
  predicate ReadyToReceive(fd: int, acceptQuota: seq<nat>, inbox: seq<seq<Byte>>)
  {
    && fd != INVALID_SOCKET
    && acceptQuota != [] && acceptQuota[0] >= ACK_SIZE
    && |inbox| >= 2 && inbox[0] == BE32(READY_SIGNAL) && |inbox[1]| >= 8
  }

  class StreamTransfer {
    const socket: Socket
    var fileSize: U64

    /** The member initialisers: the socket reference, and a file size of 0. */
    constructor (socket: Socket)
      ensures this.socket == socket && fileSize == 0
    {
      this.socket := socket;
      fileSize := 0;
    }

    /**
     * The sending constructor: the handshake, then the file size as 8 bytes.  `None` is the
     * `runtime_error` it throws when either step fails.
     */
    static method NewSender(socket: Socket, size: U64) returns (t: Option<StreamTransfer>)
      modifies socket
      ensures t.Some? ==> t.value.socket == socket && t.value.fileSize == 0
      ensures t.Some? <==>
        && socket.wire == old(socket.wire) + BE32(READY_SIGNAL) + SizeHeader(size)
        && Flatten(old(socket.inbox)) == BE32(READY_SIGNAL) + Flatten(socket.inbox)
    {
      var s := new StreamTransfer(socket);
      var ready, signal := s.ConfirmConnection();
      if !ready {
        return None;
      }
      var sent := s.SendFileSize(size);
      if !sent {
        return None;
      }
      t := Some(s);
    }

    /**
     * The receiving constructor: the handshake, then exactly 8 bytes read as the file size.
     * `None` is the `runtime_error` it throws when either step fails.
     */
    static method NewReceiver(socket: Socket) returns (t: Option<StreamTransfer>, ghost sizeBytes: seq<Byte>)
      modifies socket
      ensures t.Some? ==> t.value.socket == socket
      ensures t.Some? ==> |sizeBytes| == 8 && t.value.fileSize == FromSizeHeader(sizeBytes)
      ensures t.Some? ==>
        && socket.wire == old(socket.wire) + BE32(READY_SIGNAL)
        && Flatten(old(socket.inbox)) == BE32(READY_SIGNAL) + sizeBytes + Flatten(socket.inbox)
      ensures ReadyToReceive(old(socket.fd), old(socket.acceptQuota), old(socket.inbox)) ==>
        t.Some? && sizeBytes == old(socket.inbox)[1][..8]
    {
      sizeBytes := [];
      var s := new StreamTransfer(socket);
      var ready, signal := s.ConfirmConnection();
      if !ready {
        return None, sizeBytes;
      }
      var got;
      got, sizeBytes := s.ReceiveFileSize();
      if !got {
        return None, sizeBytes;
      }
      t := Some(s);
    }

    /**
     * `confirmConnection`: send the ready signal, and only when all 4 bytes went out, wait for
     * the peer's.  `signal` is what the wait read (nothing when it did not run).
     */
    method ConfirmConnection() returns (ok: bool, ghost signal: seq<Byte>)
      modifies socket
      ensures ok <==> socket.wire == old(socket.wire) + BE32(READY_SIGNAL) && signal == BE32(READY_SIGNAL)
      ensures old(socket.wire) <= socket.wire && |socket.wire| <= |old(socket.wire)| + ACK_SIZE
      ensures |signal| <= ACK_SIZE
      ensures Flatten(old(socket.inbox)) == signal + Flatten(socket.inbox)
      ensures socket.fd == old(socket.fd) && socket.bufferSize == old(socket.bufferSize)
      ensures fileSize == old(fileSize)
      ensures && socket.fd != INVALID_SOCKET
              && old(socket.acceptQuota) != [] && old(socket.acceptQuota)[0] >= ACK_SIZE
              && old(socket.inbox) != [] && old(socket.inbox)[0] == BE32(READY_SIGNAL) ==>
        ok && socket.inbox == old(socket.inbox)[1..]
    {
      signal := [];
      var n := socket.Send(BE32(READY_SIGNAL));
      if n != ACK_SIZE {
        return false, signal;
      }
      ok, signal := WaitForReadySignal();
    }

    /** `waitForReadySignal`: one read of up to 4 bytes, which must be exactly the ready signal. */
    method WaitForReadySignal() returns (ok: bool, ghost signal: seq<Byte>)
      modifies socket
      ensures ok <==> signal == BE32(READY_SIGNAL)
      ensures |signal| <= ACK_SIZE
      ensures Flatten(old(socket.inbox)) == signal + Flatten(socket.inbox)
      ensures socket.fd != INVALID_SOCKET && old(socket.inbox) != [] ==>
        && signal == old(socket.inbox)[0][..Min(|old(socket.inbox)[0]|, ACK_SIZE)]
        && socket.inbox == (if |old(socket.inbox)[0]| <= ACK_SIZE then old(socket.inbox)[1..]
                            else [old(socket.inbox)[0][ACK_SIZE..]] + old(socket.inbox)[1..])
      ensures socket.wire == old(socket.wire) && socket.acceptQuota == old(socket.acceptQuota)
      ensures socket.fd == old(socket.fd) && socket.bufferSize == old(socket.bufferSize)
    {
      var buf := socket.Recv(ACK_SIZE);
      signal := buf;
      ok := false;
      if |buf| == ACK_SIZE {
        AckMatches(buf, READY_SIGNAL);
        ok := FromBE32(buf) == READY_SIGNAL;
      }
    }

    /** `sendFileSize`: the size's 8 bytes, all of which must go out in one call. */
    method SendFileSize(size: U64) returns (ok: bool)
      modifies socket
      ensures ok <==> socket.wire == old(socket.wire) + SizeHeader(size)
      ensures socket.inbox == old(socket.inbox)
    {
      var n := socket.Send(SizeHeader(size));
      ok := n == 8;
      assert SizeHeader(size)[..8] == SizeHeader(size);
    }

    /** `receiveFileSize`: one read that must yield exactly 8 bytes, which become the file size. */
    method ReceiveFileSize() returns (ok: bool, ghost buf: seq<Byte>)
      modifies this, socket
      ensures ok <==> |buf| == 8
      ensures ok ==> fileSize == FromSizeHeader(buf)
      ensures !ok ==> fileSize == old(fileSize)
      ensures Flatten(old(socket.inbox)) == buf + Flatten(socket.inbox)
      ensures socket.fd != INVALID_SOCKET && old(socket.inbox) != [] && |old(socket.inbox)[0]| >= 8 ==>
        ok && buf == old(socket.inbox)[0][..8]
      ensures socket.wire == old(socket.wire) && socket.fd == old(socket.fd)
    {
      var got := socket.Recv(8);
      buf := got;
      ok := |got| == 8;
      if ok {
        fileSize := FromSizeHeader(got);
      }
    }

    /** `sendAck`: the sequence number's 4 bytes, all of which must go out in one call. */
    method SendAck(seqNo: U32) returns (ok: bool)
      modifies socket
      ensures ok <==> socket.wire == old(socket.wire) + BE32(seqNo)
      ensures socket.inbox == old(socket.inbox)
      ensures socket.fd == old(socket.fd) && socket.bufferSize == old(socket.bufferSize)
    {
      var n := socket.Send(BE32(seqNo));
      ok := n == ACK_SIZE;
    }

    /**
     * `waitForAck`: read up to 4 bytes until a read yields all four, which settle the outcome:
     * acknowledged when they are `expected`.  `polls` is how many reads fit before the timeout;
     * the first read happens regardless.  `ack` is what the last read returned.
     */
    method WaitForAck(expected: U32, polls: nat) returns (ok: bool, ghost consumed: seq<Byte>, ghost ack: seq<Byte>)
      modifies socket
      ensures ok <==> ack == BE32(expected)
      ensures |ack| <= ACK_SIZE && EndsWith(consumed, ack)
      ensures socket.fd != INVALID_SOCKET && old(socket.inbox) != [] && |old(socket.inbox)[0]| >= ACK_SIZE ==>
        ack == old(socket.inbox)[0][..ACK_SIZE]
      ensures Flatten(old(socket.inbox)) == consumed + Flatten(socket.inbox)
      ensures socket.wire == old(socket.wire) && socket.acceptQuota == old(socket.acceptQuota)
      ensures socket.fd == old(socket.fd) && socket.bufferSize == old(socket.bufferSize)
    {
      consumed, ack := [], [];
      ok := false;
      ghost var earlier: seq<Byte> := [];
      var attempt := 0;
      while true
        invariant attempt == 0 || attempt < polls
        invariant attempt == 0 ==> socket.inbox == old(socket.inbox) && consumed == []
        invariant attempt > 0 ==> |ack| < ACK_SIZE
        invariant !(socket.fd != INVALID_SOCKET && old(socket.inbox) != [] && |old(socket.inbox)[0]| >= ACK_SIZE)
          || attempt == 0
        invariant !ok && |ack| <= ACK_SIZE && consumed == earlier + ack
        invariant Flatten(old(socket.inbox)) == consumed + Flatten(socket.inbox)
        invariant socket.wire == old(socket.wire) && socket.acceptQuota == old(socket.acceptQuota)
        invariant socket.fd == old(socket.fd) && socket.bufferSize == old(socket.bufferSize)
        decreases polls - attempt
      {
        earlier := consumed;
        var got := socket.Recv(ACK_SIZE);
        Regroup(earlier, got, Flatten(socket.inbox));
        consumed, ack := earlier + got, got;
        if |got| == ACK_SIZE {
          AckMatches(got, expected);
          ok := FromBE32(got) == expected;
          break;
        }
        attempt := attempt + 1;
        if attempt >= polls {
          break;
        }
      }
      EndsWithAppend(earlier, ack, ack);
    }

    /**
     * `sendPacket`: up to `MAX_RETRIES` attempts, each sending the whole packet and, when all of
     * it went out, waiting for its acknowledgement; a partial send or a missing or wrong
     * acknowledgement moves on to the next attempt.  `sends` counts the attempts made.
     */
    method SendPacket(data: seq<Byte>, seqNo: U32, polls: nat)
      returns (ok: bool, ghost sends: nat, ghost consumed: seq<Byte>)
      modifies socket
      ensures 1 <= sends <= MAX_RETRIES
      ensures old(socket.fd) != INVALID_SOCKET ==>
        socket.acceptQuota == old(socket.acceptQuota)[Min(sends, |old(socket.acceptQuota)|)..]
      ensures old(socket.wire) <= socket.wire
      ensures ok ==> EndsWith(socket.wire, Packet(seqNo, data)) && EndsWith(consumed, BE32(seqNo))
      ensures Flatten(old(socket.inbox)) == consumed + Flatten(socket.inbox)
      ensures old(socket.fd) == INVALID_SOCKET ==> !ok
      ensures (&& old(socket.fd) != INVALID_SOCKET
               && old(socket.acceptQuota) != [] && old(socket.acceptQuota)[0] >= |Packet(seqNo, data)|
               && old(socket.inbox) != [] && |old(socket.inbox)[0]| >= ACK_SIZE
               && old(socket.inbox)[0][..ACK_SIZE] == BE32(seqNo)) ==> ok && sends == 1
      ensures (forall i :: 0 <= i < Min(MAX_RETRIES, |old(socket.acceptQuota)|) ==>
                 old(socket.acceptQuota)[i] < |Packet(seqNo, data)|) ==> !ok
      ensures socket.fd == old(socket.fd) && socket.bufferSize == old(socket.bufferSize)
    {
      var packet := Packet(seqNo, data);
      ghost var quota := socket.acceptQuota;
      sends, consumed := 0, [];
      var retry := 0;
      ok := false;
      while retry < MAX_RETRIES
        invariant retry == sends <= MAX_RETRIES
        invariant socket.fd == old(socket.fd) && socket.bufferSize == old(socket.bufferSize)
        invariant old(socket.fd) != INVALID_SOCKET ==> socket.acceptQuota == quota[Min(sends, |quota|)..]
        invariant old(socket.fd) == INVALID_SOCKET ==> socket.acceptQuota == quota
        invariant old(socket.wire) <= socket.wire
        invariant Flatten(old(socket.inbox)) == consumed + Flatten(socket.inbox)
        invariant !ok
        invariant sends == 0 ==> socket.inbox == old(socket.inbox)
        invariant (&& old(socket.fd) != INVALID_SOCKET
                   && quota != [] && quota[0] >= |packet|
                   && old(socket.inbox) != [] && |old(socket.inbox)[0]| >= ACK_SIZE
                   && old(socket.inbox)[0][..ACK_SIZE] == BE32(seqNo)) ==> sends == 0
      {
        ghost var wireBefore := socket.wire;
        var n := socket.Send(packet);
        sends := sends + 1;
        retry := retry + 1;
        PrefixExtends(old(socket.wire), wireBefore, packet[..n]);
        if n == |packet| {
          assert EndsWith(socket.wire, packet);
          ghost var earlier := consumed;
          var acked, c, ack := WaitForAck(seqNo, polls);
          Regroup(earlier, c, Flatten(socket.inbox));
          consumed := earlier + c;
          if acked {
            assert old(socket.fd) != INVALID_SOCKET && sends - 1 < Min(MAX_RETRIES, |quota|) && quota[sends - 1] >= |packet|;
            EndsWithAppend(earlier, c, BE32(seqNo));
            ok := true;
            break;
          }
        }
      }
    }

    /**
     * `receivePacket`: a read of exactly 4 bytes gives the sequence number, one further read of
     * up to `CHUNK_SIZE` bytes is the data (possibly none), and the sequence number goes back as
     * the acknowledgement, whether or not that send succeeds.
     */
    method ReceivePacket() returns (ok: bool, data: seq<Byte>, seqNo: U32, ghost header: seq<Byte>, ghost acked: nat)
      modifies socket
      ensures ok <==> |header| == ACK_SIZE
      ensures ok ==> BE32(seqNo) == header && |data| <= CHUNK_SIZE
      ensures ok ==> Flatten(old(socket.inbox)) == header + data + Flatten(socket.inbox)
      ensures ok ==> acked <= ACK_SIZE && socket.wire == old(socket.wire) + BE32(seqNo)[..acked]
      ensures !ok ==> Flatten(old(socket.inbox)) == header + Flatten(socket.inbox) && socket.wire == old(socket.wire)
      ensures socket.fd != INVALID_SOCKET && old(socket.inbox) != [] && |old(socket.inbox)[0]| > ACK_SIZE ==>
        && ok && header == old(socket.inbox)[0][..ACK_SIZE]
        && data == old(socket.inbox)[0][ACK_SIZE..Min(|old(socket.inbox)[0]|, ACK_SIZE + CHUNK_SIZE)]
      ensures ok && socket.fd != INVALID_SOCKET && old(socket.acceptQuota) != [] && old(socket.acceptQuota)[0] >= ACK_SIZE ==>
        acked == ACK_SIZE
      ensures socket.fd == old(socket.fd) && socket.bufferSize == old(socket.bufferSize)
    {
      data, seqNo, acked := [], 0, 0;
      var h := socket.Recv(ACK_SIZE);
      header := h;
      if |h| != ACK_SIZE {
        return false, data, seqNo, header, acked;
      }
      seqNo := FromBE32(h);
      FromBE32Injective(h);
      data := socket.Recv(CHUNK_SIZE);
      assert Flatten(old(socket.inbox)) == h + data + Flatten(socket.inbox);
      acked := socket.Send(BE32(seqNo));
      ok := true;
    }
  }

  /**
   * One packet end to end: the receiver reads the packet the sender's socket carried and
   * acknowledges it, and that acknowledgement, arriving at the sender, completes `sendPacket` on
   * its first attempt.
   */
  method PacketRoundTrip(data: seq<Byte>, seqNo: U32) returns (received: seq<Byte>, receivedSeq: U32, sent: bool)
    requires 0 < |data| <= CHUNK_SIZE
    ensures received == data && receivedSeq == seqNo
    ensures sent
  {
    var receiverSocket := new Socket(3, [ACK_SIZE], [Packet(seqNo, data)]);
    var receiver := new StreamTransfer(receiverSocket);
    var ok, d, s, h, acked := receiver.ReceivePacket();
    assert s == seqNo by {
      PacketHeaderRoundTrip(seqNo, data);
    }
    assert d == data;
    assert receiverSocket.wire == BE32(seqNo);
    received, receivedSeq := d, s;

    var senderSocket := new Socket(4, [|Packet(seqNo, data)|], [receiverSocket.wire]);
    var sender := new StreamTransfer(senderSocket);
    var sentOk, sends, consumed := sender.SendPacket(data, seqNo, 1);
    sent := sentOk;
  }
}
