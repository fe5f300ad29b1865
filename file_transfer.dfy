/**
 * The size-first file transfer (net/FileTransfer.hpp): the sender announces the file size as an
 * 8-byte header and then streams the file in 1 MiB chunks, resending the unsent tail of a chunk
 * until `send` has taken all of it; the receiver reads the header and then writes what arrives
 * until it has the announced number of bytes.
 *
 * Files live in a `Disk`; the socket is a scripted `Channel.Socket`.  The sleeps that separate
 * the header from the data, the progress output and the directory creation are not modelled.
 */
module FileTransfer {
  import opened Bytes
  import opened Channel
  import opened FileUtils

  /** `CHUNK_SIZE`: 1 MiB. */
  const CHUNK_SIZE: nat := 1024 * 1024
  const DEFAULT_REPO_PATH: string := "./repo"

  /**
   * The eight bytes `memcpy` copies out of the receive buffer: the received bytes, or, when
   * fewer than eight arrived, those followed by the zeros the buffer was created with.
   */
  function HeaderBytes(segment: seq<Byte>): (h: seq<Byte>)
    ensures |h| == 8
    ensures |segment| >= 8 ==> h == segment[..8]
  {
    if |segment| >= 8 then segment[..8] else segment + seq(8 - |segment|, _ => 0)
  }

  /** The size the receiver reads from an exact header is the size the sender announced. */
  lemma HeaderAnnouncesSize(n: U64, rest: seq<Byte>)
    ensures FromSizeHeader(HeaderBytes(SizeHeader(n) + rest)) == n
  {
    assert (SizeHeader(n) + rest)[..8] == SizeHeader(n);
    SizeHeaderRoundTrip(n);
  }

  lemma PrefixGrows(s: seq<Byte>, i: nat, j: nat)
    requires i <= j <= |s|
    ensures s[..i] + s[i..j] == s[..j]
  {
  }

  lemma TakeOfAppend(a: seq<Byte>, b: seq<Byte>, k: nat)
    requires k <= |b|
    ensures (a + b)[..|a| + k] == a + b[..k]
  {
  }

  lemma ConcatAssoc(a: seq<Byte>, b: seq<Byte>, c: seq<Byte>)
    ensures (a + b) + c == a + (b + c)
  {
  }

  /**
   * Writing the first `readSize` bytes of a newly received segment keeps the file equal to
   * the start of everything received.
   */
  lemma ReceiveStep(written: seq<Byte>, consumed: seq<Byte>, data: seq<Byte>, received: nat, readSize: nat)
    requires |consumed| == received && written == consumed[..received] && readSize <= |data|
    ensures written + data[..readSize] == (consumed + data)[..received + readSize]
  {
    assert written == consumed;
  }

  /** Sending `r` more bytes of the chunk at `chunkStart` extends the wire by the next `r` bytes of the file. */
  lemma SendExtends(start: seq<Byte>, content: seq<Byte>, chunkStart: nat, sent: nat, r: nat)
    requires chunkStart + sent + r <= |content|
    ensures start + content[..chunkStart + sent] + content[chunkStart + sent..][..r]
         == start + content[..chunkStart + sent + r]
  {
    assert content[chunkStart + sent..][..r] == content[chunkStart + sent..chunkStart + sent + r];
    PrefixGrows(content, chunkStart + sent, chunkStart + sent + r);
    ConcatAssoc(start, content[..chunkStart + sent], content[chunkStart + sent..chunkStart + sent + r]);
  }

  class FileTransfer {
    const socket: Socket
    const disk: Disk
    var totalBytes: nat
    var transferredBytes: nat
    var repoPath: string

    /** `FileTransfer(socket)`: counters at zero, the default repository, the socket tuned for bulk data. */
    constructor (socket: Socket, disk: Disk)
      modifies socket
      ensures this.socket == socket && this.disk == disk
      ensures totalBytes == 0 && transferredBytes == 0 && repoPath == DEFAULT_REPO_PATH
      ensures socket.bufferSize == (if socket.fd == INVALID_SOCKET then old(socket.bufferSize) else LARGE_BUFFER_SIZE)
      ensures socket.fd == old(socket.fd) && socket.wire == old(socket.wire)
      ensures socket.acceptQuota == old(socket.acceptQuota) && socket.inbox == old(socket.inbox)
    {
      this.socket, this.disk := socket, disk;
      totalBytes, transferredBytes, repoPath := 0, 0, DEFAULT_REPO_PATH;
      new;
      socket.OptimizeForLargeFileTransfer();
    }

    /** `setRepoPath`; creating the directory when it is missing is not modelled. */
    method SetRepoPath(path: string)
      modifies this
      ensures repoPath == path && totalBytes == old(totalBytes) && transferredBytes == old(transferredBytes)
    {
      repoPath := path;
    }

    /** Where `sendFile` and `receiveFile` look for `fileName`. */
    function PathOf(fileName: string): string
      reads this
    {
      Joined([repoPath, fileName])
    }

    /** `sendFileSize`: the size goes out as the 8-byte header; success means `send` took some of it. */
    method SendFileSize(fileSize: U64) returns (ok: bool, ghost sent: nat)
      modifies socket
      ensures ok <==> sent > 0
      ensures sent <= 8 && socket.wire == old(socket.wire) + SizeHeader(fileSize)[..sent]
      ensures !ok ==> socket.wire == old(socket.wire)
      ensures old(socket.fd) == INVALID_SOCKET ==> !ok
      ensures socket.fd == old(socket.fd) && socket.inbox == old(socket.inbox)
    {
      var n := socket.Send(SizeHeader(fileSize));
      return n > 0, n;
    }

    /**
     * `receiveFileSize`: success when `recv` returns bytes; the size is then read from the first
     * eight bytes received (zero-padded when fewer arrived), and otherwise left as it was.
     */
    method ReceiveFileSize() returns (ok: bool, ghost segment: seq<Byte>)
      modifies this, socket
      ensures ok <==> segment != []
      ensures ok ==> totalBytes == FromSizeHeader(HeaderBytes(segment))
      ensures !ok ==> totalBytes == old(totalBytes)
      ensures transferredBytes == old(transferredBytes) && repoPath == old(repoPath)
      ensures segment + Flatten(socket.inbox) == Flatten(old(socket.inbox))
      ensures old(socket.fd) != INVALID_SOCKET && socket.bufferSize > 0 && old(socket.inbox) != [] ==>
        segment == old(socket.inbox)[0][..Min(|old(socket.inbox)[0]|, socket.bufferSize)]
      ensures Gapless(old(socket.inbox)) ==> Gapless(socket.inbox)
      ensures Gapless(old(socket.inbox)) && !ok ==>
        old(socket.fd) == INVALID_SOCKET || socket.bufferSize == 0 || old(socket.inbox) == []
      ensures socket.wire == old(socket.wire) && socket.fd == old(socket.fd) && socket.bufferSize == old(socket.bufferSize)
    {
      var sizeData := socket.Recv(socket.bufferSize);
      segment := sizeData;
      ok := sizeData != [];
      if ok {
        totalBytes := FromSizeHeader(HeaderBytes(sizeData));
      }
    }

    /**
     * `sendFile`: fails when the file does not exist or `send` takes nothing of the header (a
     * partly sent header counts as sent); then sends the whole file, failing as soon as a
     * `send` takes nothing.  `headerSent` is how much of the header went out.
     */
    method SendFile(fileName: string) returns (ok: bool, ghost headerSent: nat)
      requires disk.Bounded()
      modifies this, socket
      ensures repoPath == old(repoPath) && socket.inbox == old(socket.inbox) && socket.fd == old(socket.fd)
      ensures PathOf(fileName) !in disk.files ==> !ok && socket.wire == old(socket.wire)
      ensures old(socket.fd) == INVALID_SOCKET ==> !ok
      ensures PathOf(fileName) in disk.files ==>
        var content := disk.files[PathOf(fileName)];
        && totalBytes == |content|
        && (headerSent == 0 ==> !ok && socket.wire == old(socket.wire))
        && (headerSent != 0 ==>
              && headerSent <= 8
              && transferredBytes <= totalBytes
              && socket.wire == old(socket.wire) + SizeHeader(|content|)[..headerSent] + content[..transferredBytes])
      ensures ok ==> PathOf(fileName) in disk.files && transferredBytes == totalBytes
      ensures PathOf(fileName) in disk.files && headerSent != 0 && transferredBytes == totalBytes ==> ok
    {
      var path := JoinPath([repoPath, fileName]);
      if path !in disk.files {
        return false, 0;
      }
      var content := disk.files[path];
      totalBytes := |content|;
      var sizeSent;
      sizeSent, headerSent := SendFileSize(totalBytes);
      if !sizeSent {
        return false, 0;
      }
      ghost var start := old(socket.wire) + SizeHeader(|content|)[..headerSent];
      transferredBytes := 0;
      var pos := 0;
      var failed := false;
      while transferredBytes < totalBytes && !failed
        invariant transferredBytes == pos <= totalBytes == |content|
        invariant socket.wire == start + content[..transferredBytes]
        invariant failed ==> transferredBytes < totalBytes
        invariant repoPath == old(repoPath) && socket.inbox == old(socket.inbox) && socket.fd == old(socket.fd)
        decreases totalBytes - transferredBytes, !failed
      {
        var bytesRead := Min(CHUNK_SIZE, |content| - pos);
        var buffer := content[pos..pos + bytesRead];
        var sent := SendBuffer(buffer);
        SendExtends(start, content, pos, 0, sent);
        assert content[pos..][..sent] == buffer[..sent];
        pos := pos + sent;
        transferredBytes := transferredBytes + sent;
        failed := sent < bytesRead;
      }
      ok := !failed;
    }

    /**
     * The inner loop of `sendFile`: `send` the rest of `buffer` until all of it is taken or a
     * `send` takes nothing; `sent` is how much went out.
     */
    method SendBuffer(buffer: seq<Byte>) returns (sent: nat)
      modifies socket
      ensures sent <= |buffer| && socket.wire == old(socket.wire) + buffer[..sent]
      ensures socket.inbox == old(socket.inbox) && socket.fd == old(socket.fd)
      ensures old(socket.fd) == INVALID_SOCKET ==> sent == 0
    {
      sent := 0;
      while sent < |buffer|
        invariant sent <= |buffer| && socket.wire == old(socket.wire) + buffer[..sent]
        invariant socket.inbox == old(socket.inbox) && socket.fd == old(socket.fd)
        invariant old(socket.fd) == INVALID_SOCKET ==> sent == 0
        decreases |buffer| - sent
      {
        var r := socket.Send(buffer[sent..]);
        if r == 0 {
          break;
        }
        assert buffer[..sent] + buffer[sent..][..r] == buffer[..sent + r];
        sent := sent + r;
      }
    }

    /**
     * `receiveFile`: truncates the target (failing if it cannot be created), reads the size
     * header (failing if `recv` returns 0; any bytes after the first eight of that segment are
     * dropped), then writes `MIN(result, total - received)` bytes of each further segment until
     * the announced size is reached, failing if `recv` returns 0 first.  `consumed` is
     * everything read after the header segment.
     */
    method ReceiveFile(fileName: string) returns (ok: bool, ghost headerSegment: seq<Byte>, ghost consumed: seq<Byte>)
      modifies this, socket, disk
      ensures repoPath == old(repoPath) && disk.unwritable == old(disk.unwritable)
      ensures socket.wire == old(socket.wire) && socket.fd == old(socket.fd) && socket.bufferSize == old(socket.bufferSize)
      ensures PathOf(fileName) in old(disk.unwritable) ==> !ok && disk.files == old(disk.files) && socket.inbox == old(socket.inbox)
      ensures PathOf(fileName) !in old(disk.unwritable) ==>
        var path := PathOf(fileName);
        && path in disk.files && disk.files == old(disk.files)[path := disk.files[path]]
        && Flatten(old(socket.inbox)) == headerSegment + consumed + Flatten(socket.inbox)
        && (old(socket.fd) != INVALID_SOCKET && socket.bufferSize > 0 && old(socket.inbox) != [] ==>
              headerSegment == old(socket.inbox)[0][..Min(|old(socket.inbox)[0]|, socket.bufferSize)])
        && |disk.files[path]| <= |consumed| && disk.files[path] == consumed[..|disk.files[path]|]
        && (headerSegment != [] ==> totalBytes == FromSizeHeader(HeaderBytes(headerSegment)))
        && (ok ==> headerSegment != [] && transferredBytes == totalBytes == |disk.files[path]|)
        && (!ok && Gapless(old(socket.inbox)) && old(socket.fd) != INVALID_SOCKET && socket.bufferSize > 0 ==>
              old(socket.inbox) == [] || |Flatten(old(socket.inbox))| < |headerSegment| + totalBytes)
    {
      var path := JoinPath([repoPath, fileName]);
      if path in disk.unwritable {
        return false, [], [];
      }
      disk.files := disk.files[path := []];
      var sizeReceived;
      sizeReceived, headerSegment := ReceiveFileSize();
      if !sizeReceived {
        return false, headerSegment, [];
      }
      ok, consumed := ReceiveContent(path);
    }

    /** One `recv` into the buffer of `socket`'s configured size, as the receiving loop needs it. */
    method RecvSegment() returns (data: seq<Byte>)
      modifies socket
      ensures data + Flatten(socket.inbox) == Flatten(old(socket.inbox))
      ensures Gapless(old(socket.inbox)) ==> Gapless(socket.inbox)
      ensures Gapless(old(socket.inbox)) && data == [] && socket.fd != INVALID_SOCKET && socket.bufferSize > 0 ==>
        old(socket.inbox) == []
      ensures socket.fd == old(socket.fd) && socket.bufferSize == old(socket.bufferSize) && socket.wire == old(socket.wire)
    {
      data := socket.Recv(socket.bufferSize);
    }

    /**
     * The receiving loop of `receiveFile`: appends to the (empty) file at `path` until
     * `totalBytes` bytes are written, failing if `recv` returns 0 first.  `consumed` is
     * everything `recv` returned; the surplus of the last segment is not written.
     */
    method ReceiveContent(path: string) returns (ok: bool, ghost consumed: seq<Byte>)
      requires path in disk.files && disk.files[path] == []
      modifies this, socket, disk
      ensures totalBytes == old(totalBytes) && repoPath == old(repoPath) && disk.unwritable == old(disk.unwritable)
      ensures socket.wire == old(socket.wire) && socket.fd == old(socket.fd) && socket.bufferSize == old(socket.bufferSize)
      ensures path in disk.files && disk.files == old(disk.files)[path := disk.files[path]]
      ensures Flatten(old(socket.inbox)) == consumed + Flatten(socket.inbox)
      ensures |disk.files[path]| <= |consumed| && disk.files[path] == consumed[..|disk.files[path]|]
      ensures |disk.files[path]| <= totalBytes
      ensures ok ==> transferredBytes == totalBytes == |disk.files[path]|
      ensures !ok && Gapless(old(socket.inbox)) && socket.fd != INVALID_SOCKET && socket.bufferSize > 0 ==>
        |Flatten(old(socket.inbox))| < totalBytes
    {
      ghost var before := Flatten(socket.inbox);
      ghost var gapless := Gapless(socket.inbox);
      transferredBytes := 0;
      var received := 0;
      consumed := [];
      ok := true;
      while received < totalBytes
        invariant received == transferredBytes <= totalBytes == old(totalBytes)
        invariant received <= |consumed| && (received < totalBytes ==> |consumed| == received)
        invariant disk.files == old(disk.files)[path := consumed[..received]]
        invariant before == consumed + Flatten(socket.inbox)
        invariant gapless ==> Gapless(socket.inbox)
        invariant repoPath == old(repoPath) && disk.unwritable == old(disk.unwritable)
        invariant socket.wire == old(socket.wire) && socket.fd == old(socket.fd) && socket.bufferSize == old(socket.bufferSize)
        decreases totalBytes - received
      {
        ghost var rest := Flatten(socket.inbox);
        var data := RecvSegment();
        if data == [] {
          assert gapless && socket.fd != INVALID_SOCKET && socket.bufferSize > 0 ==> rest == [];
          ok := false;
          break;
        }
        ConcatAssoc(consumed, data, Flatten(socket.inbox));
        var readSize := Min(|data|, totalBytes - received);
        ReceiveStep(consumed[..received], consumed, data, received, readSize);
        disk.files := disk.files[path := disk.files[path] + data[..readSize]];
        received := received + readSize;
        transferredBytes := transferredBytes + readSize;
        consumed := consumed + data;
      }
    }
  }

  /**
   * With a faithful channel, whose first segment is exactly the 8-byte header and whose later
   * segments carry the file, the receiver succeeds and writes exactly the sent bytes.
   */
  method ReceiveOverFaithfulChannel(content: seq<Byte>, segments: seq<seq<Byte>>, fileName: string)
    returns (ok: bool, written: seq<Byte>)
    requires |content| < 0x1_0000_0000_0000_0000
    requires Gapless(segments) && Flatten(segments) == content
    ensures ok && written == content
  {
    var header := SizeHeader(|content|);
    var socket := new Socket(3, [], [header] + segments);
    var disk := new Disk(map[], {});
    assert Flatten([header] + segments) == header + content by {
      FlattenAppend([header], segments);
      assert Flatten([header]) == header + Flatten([]);
    }
    var transfer := new FileTransfer(socket, disk);
    ghost var headerSegment, consumed;
    assert socket.bufferSize == LARGE_BUFFER_SIZE && ([header] + segments)[0] == header;
    ok, headerSegment, consumed := transfer.ReceiveFile(fileName);
    var path := transfer.PathOf(fileName);
    written := disk.files[path];
    assert Gapless([header] + segments) by {
      assert SizeHeader(|content|) != [];
    }
    assert header[..Min(|header|, LARGE_BUFFER_SIZE)] == header;
    assert headerSegment == header;
    HeaderAnnouncesSize(|content|, []);
    assert header + [] == header;
    ghost var rest := Flatten(socket.inbox);
    assert header + content == header + (consumed + rest);
    assert content == (header + content)[|header|..] == (header + (consumed + rest))[|header|..] == consumed + rest;
    assert |consumed| >= |content|;
    assert written == consumed[..|content|] == content;
  }

  /**
   * The receiver takes the whole first segment as the size header: when the header and the
   * start of the file arrive in one segment (which the sender's pause after the header is meant
   * to prevent), those file bytes are dropped and, if nothing else follows, the receive fails.
   */
  method ReceiveCoalesced(content: seq<Byte>, fileName: string) returns (ok: bool)
    requires 0 < |content| <= LARGE_BUFFER_SIZE - 8
    ensures !ok
  {
    var header := SizeHeader(|content|);
    var socket := new Socket(3, [], [header + content]);
    var disk := new Disk(map[], {});
    var transfer := new FileTransfer(socket, disk);
    ghost var headerSegment, consumed;
    assert Gapless([header + content]) && Flatten([header + content]) == header + content + [];
    ok, headerSegment, consumed := transfer.ReceiveFile(fileName);
    assert headerSegment == header + content;
    HeaderAnnouncesSize(|content|, content);
    assert consumed == [];
  }
}
