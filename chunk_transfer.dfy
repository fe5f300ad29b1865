/**
 * The marker-terminated chunked transfer (net/Transfer/FileTransfer.hpp): the sender reads the
 * file from an offset in 1 MiB chunks and sends each as one message, retrying a failed send up
 * to three times, and ends with an empty message; the receiver appends every message to the
 * file until the empty one arrives.
 *
 * It is written against a message-preserving socket (`send(std::string)`/`recv(std::string&)`
 * returning success), modelled by `Channel.MessageSocket`.  Files live in a `FileUtils.Disk`.
 */
module ChunkedTransfer {
  import opened Wrappers
  import opened Bytes
  import opened Channel
  import opened FileUtils

  /** `CHUNK_SIZE`: 1 MiB. */
  const CHUNK_SIZE: nat := 1024 * 1024
  /** `MAX_RETRIES`: send attempts per chunk. */
  const MAX_RETRIES: nat := 3

  /**
   * The messages `sendFile`'s read loop produces for the bytes after the offset: full chunks
   * while a full chunk can be read, then the short read that hits end-of-file, which is empty
   * when the length is a multiple of the chunk size.
   */
  function Chunks(data: seq<Byte>): (chunks: seq<seq<Byte>>)
    ensures |chunks| > 0
    decreases |data|
  {
    if |data| < CHUNK_SIZE then [data] else [data[..CHUNK_SIZE]] + Chunks(data[CHUNK_SIZE..])
  }

  /** What the sender reads after seeking to `offset`: nothing when the offset is past the end. */
  function Remainder(content: seq<Byte>, offset: nat): (rest: seq<Byte>)
    ensures |rest| <= |content| && rest == content[|content| - |rest|..]
    ensures offset <= |content| ==> |rest| == |content| - offset
  {
    content[Min(offset, |content|)..]
  }

  /** The index of the first empty message, which the receiver takes as the end marker. */
  function FirstEmpty(messages: seq<seq<Byte>>): (r: Option<nat>)
    ensures r.None? ==> Gapless(messages)
    ensures r.Some? ==> r.value < |messages| && messages[r.value] == [] && Gapless(messages[..r.value])
  {
    if messages == [] then None
    else if messages[0] == [] then Some(0)
    else match FirstEmpty(messages[1..])
      case None => None
      case Some(i) =>
        assert messages[..i + 1] == [messages[0]] + messages[1..][..i];
        Some(i + 1)
  }

  /** A message is the end marker when it is empty and none before it is. */
  lemma {:induction false} FirstEmptyAt(messages: seq<seq<Byte>>, k: nat)
    requires k < |messages| && messages[k] == [] && Gapless(messages[..k])
    ensures FirstEmpty(messages) == Some(k)
    decreases k
  {
    if k > 0 {
      assert messages[0] == messages[..k][0];
      assert messages[1..][..k - 1] == messages[..k][1..];
      FirstEmptyAt(messages[1..], k - 1);
    }
  }

  /** The chunks put back together are the data; every chunk but the last is full, the last is short. */
  lemma {:induction false} ChunksShape(data: seq<Byte>)
    ensures Flatten(Chunks(data)) == data
    ensures forall i :: 0 <= i < |Chunks(data)| - 1 ==> |Chunks(data)[i]| == CHUNK_SIZE
    ensures |Chunks(data)[|Chunks(data)| - 1]| < CHUNK_SIZE
    decreases |data|
  {
    if |data| >= CHUNK_SIZE {
      var rest := data[CHUNK_SIZE..];
      ChunksShape(rest);
      var cs := Chunks(data);
      assert cs == [data[..CHUNK_SIZE]] + Chunks(rest);
      assert cs[1..] == Chunks(rest);
      assert Flatten(cs) == data[..CHUNK_SIZE] + Flatten(Chunks(rest));
      assert data == data[..CHUNK_SIZE] + rest;
      forall i | 0 <= i < |cs| - 1
        ensures |cs[i]| == CHUNK_SIZE
      {
        if i > 0 {
          assert cs[i] == Chunks(rest)[i - 1];
        }
      }
    }
  }

  /** The first message of `Chunks(r)` is what one read of at most a chunk returns. */
  lemma ChunksStep(r: seq<Byte>)
    ensures Chunks(r)[0] == r[..Min(CHUNK_SIZE, |r|)]
    ensures |r| < CHUNK_SIZE ==> |Chunks(r)| == 1
    ensures |r| >= CHUNK_SIZE ==> Chunks(r)[1..] == Chunks(r[CHUNK_SIZE..])
  {
    if |r| < CHUNK_SIZE {
      assert r[..|r|] == r;
    }
  }

  lemma FlattenSnoc(xs: seq<seq<Byte>>, k: nat)
    requires k < |xs|
    ensures Flatten(xs[..k + 1]) == Flatten(xs[..k]) + xs[k]
  {
    assert xs[..k + 1] == xs[..k] + [xs[k]];
    FlattenAppend(xs[..k], [xs[k]]);
    assert Flatten([xs[k]]) == xs[k] + Flatten([]);
  }

  /** Taking in one more non-empty message: no gap so far, and the file grows by that message. */
  lemma ArrivalStep(a: seq<seq<Byte>>, k: nat)
    requires k < |a| && a[k] != [] && Gapless(a[..k])
    ensures Gapless(a[..k + 1]) && Flatten(a[..k + 1]) == Flatten(a[..k]) + a[k]
    ensures a[k + 1..] == a[k..][1..]
  {
    FlattenSnoc(a, k);
    assert a[..k + 1] == a[..k] + [a[k]];
  }

  /**
   * The stream the sender produces, chunks and end marker, tells the receiver where to stop,
   * and the messages before that point are exactly the data.
   */
  lemma ChunksThenMarker(data: seq<Byte>)
    ensures var messages := Chunks(data) + [[]];
      FirstEmpty(messages).Some? && Flatten(messages[..FirstEmpty(messages).value]) == data
  {
    var cs := Chunks(data);
    var messages := cs + [[]];
    var last := |cs| - 1;
    FullChunksGapless(data);
    assert messages[..last] == cs[..last];
    if cs[last] == [] {
      FirstEmptyAt(messages, last);
      FlattenSnoc(cs, last);
      assert cs[..last + 1] == cs;
    } else {
      ArrivalStep(cs, last);
      assert cs[..last + 1] == cs;
      assert messages[..|cs|] == cs;
      FirstEmptyAt(messages, |cs|);
    }
  }

  /** Every chunk before the last is full, hence not empty, and the chunks make up the data. */
  lemma FullChunksGapless(data: seq<Byte>)
    ensures var cs := Chunks(data);
      Gapless(cs[..|cs| - 1]) && Flatten(cs) == data
  {
    var cs := Chunks(data);
    var last := |cs| - 1;
    ChunksShape(data);
    forall i | 0 <= i < last
      ensures cs[..last][i] != []
    {
      assert |cs[i]| == CHUNK_SIZE;
    }
  }

  /** Appending the next chunk to a log of the first `k` chunks gives the log of `k + 1`. */
  lemma LogGrows(log: seq<seq<Byte>>, chunks: seq<seq<Byte>>, k: nat)
    requires k < |chunks|
    ensures log + chunks[..k] + [chunks[k]] == log + chunks[..k + 1]
  {
    assert chunks[..k + 1] == chunks[..k] + [chunks[k]];
  }

  /** The first `n` scripted sends all succeed. */
  predicate AllSucceed(outcomes: seq<bool>, n: nat)
  {
    |outcomes| >= n && forall i :: 0 <= i < n ==> outcomes[i]
  }

  /** One pass of the read-and-send loop keeps its invariant. */
  lemma SendChunksStep(content: seq<Byte>, start: nat, pos: nat, k: nat, bytesRead: nat, eof: bool)
    requires start <= pos <= |content|
    requires k < |Chunks(content[start..])| && Chunks(content[start..])[k..] == Chunks(content[pos..])
    requires Flatten(Chunks(content[start..])[..k]) == content[start..pos]
    requires bytesRead == Min(CHUNK_SIZE, |content| - pos) && eof == (bytesRead < CHUNK_SIZE)
    ensures var chunks := Chunks(content[start..]);
      && Chunks(content[start..])[k] == content[pos..pos + bytesRead]
      && chunks[..k + 1] == chunks[..k] + [content[pos..pos + bytesRead]]
      && Flatten(chunks[..k + 1]) == content[start..pos + bytesRead]
      && (!eof ==> k + 1 < |chunks| && chunks[k + 1..] == Chunks(content[pos + bytesRead..]))
      && (eof ==> k + 1 == |chunks| && pos + bytesRead == |content|)
  {
    var chunks := Chunks(content[start..]);
    var r := content[pos..];
    ChunksStep(r);
    assert chunks[k] == Chunks(r)[0] == content[pos..pos + bytesRead];
    FlattenSnoc(chunks, k);
    assert content[start..pos + bytesRead] == content[start..pos] + content[pos..pos + bytesRead];
    if !eof {
      assert r[CHUNK_SIZE..] == content[pos + bytesRead..];
      assert chunks[k + 1..] == chunks[k..][1..];
    } else {
      assert |Chunks(r)| == 1;
    }
  }

  class FileTransfer {
    const socket: MessageSocket
    const disk: Disk
    var totalBytes: nat
    var transferredBytes: nat

    /** `FileTransfer(socket)`: counters at zero, the socket's buffer set to one chunk. */
    constructor (socket: MessageSocket, disk: Disk)
      modifies socket
      ensures this.socket == socket && this.disk == disk
      ensures totalBytes == 0 && transferredBytes == 0
      ensures socket.bufferSize == CHUNK_SIZE
      ensures socket.sentMessages == old(socket.sentMessages) && socket.sendOutcomes == old(socket.sendOutcomes)
      ensures socket.arrivals == old(socket.arrivals)
    {
      this.socket, this.disk := socket, disk;
      totalBytes, transferredBytes := 0, 0;
      new;
      socket.SetBufferSize(CHUNK_SIZE);
    }

    /**
     * `sendChunk`: up to `MAX_RETRIES` attempts, stopping at the first that succeeds; it
     * succeeds exactly when one of the next three scripted outcomes is a success.
     */
    method SendChunk(data: seq<Byte>) returns (ok: bool)
      modifies socket
      ensures var o := old(socket.sendOutcomes);
        && (ok <==> true in o[..Min(MAX_RETRIES, |o|)])
        && (o != [] && o[0] ==> ok && socket.sendOutcomes == o[1..])
      ensures socket.sentMessages == old(socket.sentMessages) + (if ok then [data] else [])
      ensures socket.bufferSize == old(socket.bufferSize) && socket.arrivals == old(socket.arrivals)
    {
      ghost var o := socket.sendOutcomes;
      ghost var used := 0;
      var retries := 0;
      ok := false;
      while retries < MAX_RETRIES
        invariant retries <= MAX_RETRIES && used == Min(retries, |o|) && !ok
        invariant socket.sendOutcomes == o[used..] && true !in o[..used]
        invariant o != [] && o[0] ==> retries == 0
        invariant socket.sentMessages == old(socket.sentMessages)
        invariant socket.bufferSize == old(socket.bufferSize) && socket.arrivals == old(socket.arrivals)
      {
        var sent := socket.SendMessage(data);
        if sent {
          assert o[..Min(MAX_RETRIES, |o|)][used] == o[used] == true;
          ok := true;
          break;
        }
        if used < |o| {
          assert o[..used + 1] == o[..used] + [o[used]];
        }
        retries := retries + 1;
        used := Min(retries, |o|);
      }
    }

    /**
     * `sendFile`: fails when the file does not exist; otherwise records the file size, sends the
     * chunks of what follows `offset`, then sends the empty end marker; any chunk or marker
     * that cannot be sent fails the transfer.  `chunksSent` is how many chunks went out.
     */
    method SendFile(path: string, offset: nat) returns (ok: bool, ghost chunksSent: nat)
      modifies this, socket
      ensures socket.bufferSize == old(socket.bufferSize) && socket.arrivals == old(socket.arrivals)
      ensures path !in disk.files ==>
        !ok && socket.sentMessages == old(socket.sentMessages) && transferredBytes == old(transferredBytes)
      ensures path in disk.files ==>
        var data := Remainder(disk.files[path], offset);
        && totalBytes == |disk.files[path]|
        && chunksSent <= |Chunks(data)|
        && socket.sentMessages == old(socket.sentMessages) + Chunks(data)[..chunksSent] + (if ok then [[]] else [])
        && transferredBytes == old(transferredBytes) + |Flatten(Chunks(data)[..chunksSent])|
        && (ok ==> chunksSent == |Chunks(data)| && transferredBytes == old(transferredBytes) + |data|)
      ensures true !in old(socket.sendOutcomes) ==> !ok
      ensures path in disk.files && AllSucceed(old(socket.sendOutcomes), |Chunks(Remainder(disk.files[path], offset))| + 1) ==> ok
    {
      if path !in disk.files {
        return false, 0;
      }
      var content := disk.files[path];
      totalBytes := |content|;
      var start := Min(offset, |content|);
      ghost var data := content[start..];
      ghost var o := socket.sendOutcomes;
      ghost var n := |Chunks(data)|;
      ok, chunksSent := SendChunks(content, start);
      if !ok {
        return;
      }
      assert Chunks(data)[..chunksSent] == Chunks(data);
      ChunksShape(data);
      ok := SendChunk([]);
      assert AllSucceed(o, n + 1) ==> o[n..] != [] && o[n..][0];
    }

    /**
     * The read-and-send loop of `sendFile`: reads at most a chunk at a time from `start` until a
     * read comes up short (end of file), sends each chunk, and adds its size to
     * `transferredBytes` once it is sent; stops with failure at the first chunk not sent.
     */
    method SendChunks(content: seq<Byte>, start: nat) returns (ok: bool, ghost chunksSent: nat)
      requires start <= |content|
      modifies this, socket
      ensures var chunks := Chunks(content[start..]);
        && chunksSent <= |chunks| && (ok ==> chunksSent == |chunks|)
        && socket.sentMessages == old(socket.sentMessages) + chunks[..chunksSent]
        && transferredBytes == old(transferredBytes) + |Flatten(chunks[..chunksSent])|
        && (AllSucceed(old(socket.sendOutcomes), |chunks|) ==> ok && socket.sendOutcomes == old(socket.sendOutcomes)[|chunks|..])
      ensures true !in old(socket.sendOutcomes) ==> !ok && chunksSent == 0
      ensures totalBytes == old(totalBytes)
      ensures socket.bufferSize == old(socket.bufferSize) && socket.arrivals == old(socket.arrivals)
    {
      ghost var data := content[start..];
      ghost var o := socket.sendOutcomes;
      ghost var faithful := AllSucceed(o, |Chunks(data)|);
      var pos := start;
      var eof := false;
      chunksSent := 0;
      ok := true;
      while !eof
        invariant ok
        invariant start <= pos <= |content| && chunksSent <= |Chunks(data)|
        invariant !eof ==> chunksSent < |Chunks(data)| && Chunks(data)[chunksSent..] == Chunks(content[pos..])
        invariant eof ==> chunksSent == |Chunks(data)|
        invariant Flatten(Chunks(data)[..chunksSent]) == content[start..pos]
        invariant socket.sentMessages == old(socket.sentMessages) + Chunks(data)[..chunksSent]
        invariant transferredBytes == old(transferredBytes) + (pos - start)
        invariant totalBytes == old(totalBytes)
        invariant faithful ==> socket.sendOutcomes == o[chunksSent..]
        invariant chunksSent == 0 ==> socket.sendOutcomes == o
        invariant chunksSent > 0 ==> true in o
        invariant socket.bufferSize == old(socket.bufferSize) && socket.arrivals == old(socket.arrivals)
        decreases |content| - pos, if eof then 0 else 1
      {
        var bytesRead := Min(CHUNK_SIZE, |content| - pos);
        var chunk := content[pos..pos + bytesRead];
        eof := bytesRead < CHUNK_SIZE;
        SendChunksStep(content, start, pos, chunksSent, bytesRead, eof);
        assert faithful ==> socket.sendOutcomes != [] && socket.sendOutcomes[0] by {
          if faithful {
            assert o[chunksSent..][0] == o[chunksSent];
          }
        }
        ghost var sentBefore := socket.sentMessages;
        ghost var outcomesBefore := socket.sendOutcomes;
        var sent := SendChunk(chunk);
        if !sent {
          assert !faithful;
          ok := false;
          break;
        }
        assert chunksSent == 0 ==> true in o[..Min(MAX_RETRIES, |o|)];
        assert faithful ==> socket.sendOutcomes == o[chunksSent + 1..] by {
          if faithful {
            assert outcomesBefore[1..] == o[chunksSent + 1..];
          }
        }
        assert socket.sentMessages == old(socket.sentMessages) + Chunks(data)[..chunksSent + 1] by {
          assert socket.sentMessages == sentBefore + [chunk];
          LogGrows(old(socket.sentMessages), Chunks(data), chunksSent);
        }
        transferredBytes := transferredBytes + bytesRead;
        pos := pos + bytesRead;
        chunksSent := chunksSent + 1;
      }
    }

    /**
     * `receiveChunk`: -1 when `recv` fails, 0 for the empty end marker, otherwise the size of
     * the message, whose bytes are `chunk`.
     */
    method ReceiveChunk() returns (n: int, chunk: seq<Byte>)
      modifies socket
      ensures old(socket.arrivals) == [] ==> n == -1 && chunk == [] && socket.arrivals == []
      ensures old(socket.arrivals) != [] ==>
        && chunk == old(socket.arrivals)[0] && n == |chunk|
        && socket.arrivals == old(socket.arrivals)[1..]
      ensures socket.bufferSize == old(socket.bufferSize) && socket.sentMessages == old(socket.sentMessages)
      ensures socket.sendOutcomes == old(socket.sendOutcomes)
    {
      var data := socket.RecvMessage();
      if data.Some? {
        if data.value == [] {
          return 0, [];
        }
        return |data.value|, data.value;
      }
      return -1, [];
    }

    /**
     * `receiveFile`: truncates the target (failing if it cannot be created), sets `totalBytes`
     * to the truncated file's size plus `offset`, then appends each message until the empty end
     * marker (success) or a failed `recv` (failure), counting the bytes in `transferredBytes`.
     */
    method ReceiveFile(path: string, offset: nat) returns (ok: bool)
      modifies this, socket, disk
      ensures disk.unwritable == old(disk.unwritable)
      ensures socket.bufferSize == old(socket.bufferSize) && socket.sentMessages == old(socket.sentMessages)
      ensures path in old(disk.unwritable) ==>
        !ok && disk.files == old(disk.files) && socket.arrivals == old(socket.arrivals)
      ensures path !in old(disk.unwritable) ==>
        var a := old(socket.arrivals);
        && path in disk.files && disk.files == old(disk.files)[path := disk.files[path]]
        && totalBytes == offset
        && transferredBytes == old(transferredBytes) + |disk.files[path]|
        && (ok <==> FirstEmpty(a).Some?)
        && (ok ==> disk.files[path] == Flatten(a[..FirstEmpty(a).value]) && socket.arrivals == a[FirstEmpty(a).value + 1..])
        && (!ok ==> disk.files[path] == Flatten(a) && socket.arrivals == [])
    {
      if path in disk.unwritable {
        return false;
      }
      disk.files := disk.files[path := []];
      totalBytes := 0 + offset;
      ghost var a := socket.arrivals;
      ghost var k := 0;
      ok := false;
      while true
        invariant k <= |a| && socket.arrivals == a[k..] && Gapless(a[..k]) && !ok
        invariant disk.files == old(disk.files)[path := Flatten(a[..k])]
        invariant transferredBytes == old(transferredBytes) + |Flatten(a[..k])| && totalBytes == offset
        invariant disk.unwritable == old(disk.unwritable)
        invariant socket.bufferSize == old(socket.bufferSize) && socket.sentMessages == old(socket.sentMessages)
        decreases |socket.arrivals|
      {
        var bytesReceived, chunk := ReceiveChunk();
        if bytesReceived == 0 {
          FirstEmptyAt(a, k);
          ok := true;
          break;
        } else if bytesReceived == -1 {
          assert a[..k] == a;
          break;
        }
        ArrivalStep(a, k);
        disk.files := disk.files[path := disk.files[path] + chunk];
        transferredBytes := transferredBytes + bytesReceived;
        k := k + 1;
      }
    }
  }

  /**
   * End to end: over a channel that delivers every message, the sender succeeds, and a
   * receiver fed the sender's messages succeeds and writes exactly the bytes after the offset.
   */
  method TransferEndToEnd(content: seq<Byte>, offset: nat) returns (sent: bool, received: bool, written: seq<Byte>)
    ensures sent && received && written == Remainder(content, offset)
  {
    var data := Remainder(content, offset);
    var senderSocket := new MessageSocket(seq(|Chunks(data)| + 1, _ => true), []);
    var senderDisk := new Disk(map["in" := content], {});
    var sender := new FileTransfer(senderSocket, senderDisk);
    ghost var chunksSent;
    sent, chunksSent := sender.SendFile("in", offset);
    var messages := senderSocket.sentMessages;
    assert messages == Chunks(data) + [[]];
    var receiverSocket := new MessageSocket([], messages);
    var receiverDisk := new Disk(map[], {});
    var receiver := new FileTransfer(receiverSocket, receiverDisk);
    received := receiver.ReceiveFile("out", offset);
    written := receiverDisk.files["out"];
    ChunksThenMarker(data);
  }
}
