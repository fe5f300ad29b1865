/**
 * The socket as the core code sees it (net/Socket.hpp `send`/`recv`), with the network as a
 * script: `acceptQuota` says how many bytes the kernel takes at each successive `send` call
 * (0 standing for an error), and `inbox` holds what is available to each successive `recv`
 * (an empty segment standing for a closed peer or an error).  Every byte sent so far is logged,
 * in order, in `wire`.
 *
 * `recv` copies at most the socket's buffer size (1024 bytes, 64 KiB once the socket is tuned
 * for file transfer) and leaves the rest of an available segment for the next call, as a TCP
 * stream does.
 */
module Channel {
  import opened Bytes
  import opened Wrappers

  /** `INVALID_SOCKET` on POSIX hosts. */
  const INVALID_SOCKET: int := -1
  /** `BUFFER_SIZE`, the default receive buffer. */
  const BUFFER_SIZE: nat := 1024
  /** The receive buffer `optimizeForLargeFileTransfer` sets. */
  const LARGE_BUFFER_SIZE: nat := 64 * 1024

  /** The bytes of a sequence of segments, in order. */
  function Flatten(segments: seq<seq<Byte>>): (r: seq<Byte>)
  {
    if segments == [] then [] else segments[0] + Flatten(segments[1..])
  }

  lemma {:induction false} FlattenAppend(a: seq<seq<Byte>>, b: seq<seq<Byte>>)
    ensures Flatten(a + b) == Flatten(a) + Flatten(b)
    decreases |a|
  {
    if a == [] {
      assert a + b == b;
    } else {
      assert (a + b)[1..] == a[1..] + b;
      FlattenAppend(a[1..], b);
    }
  }

  /** No scripted `recv` reports a closed peer or an error. */
  predicate Gapless(segments: seq<seq<Byte>>)
  {
    forall i :: 0 <= i < |segments| ==> segments[i] != []
  }

  class Socket {
    var fd: int
    var bufferSize: nat
    var wire: seq<Byte>
    var acceptQuota: seq<nat>
    var inbox: seq<seq<Byte>>

    /** `Socket(client_fd)` over a scripted peer. */
    constructor (fd: int, acceptQuota: seq<nat>, inbox: seq<seq<Byte>>)
      ensures this.fd == fd && bufferSize == BUFFER_SIZE && wire == []
      ensures this.acceptQuota == acceptQuota && this.inbox == inbox
    {
      this.fd, bufferSize, wire := fd, BUFFER_SIZE, [];
      this.acceptQuota, this.inbox := acceptQuota, inbox;
    }

    /** `optimizeForLargeFileTransfer`: only the application buffer size is observable here. */
    method OptimizeForLargeFileTransfer()
      modifies this
      ensures bufferSize == (if fd == INVALID_SOCKET then old(bufferSize) else LARGE_BUFFER_SIZE)
      ensures fd == old(fd) && wire == old(wire) && acceptQuota == old(acceptQuota) && inbox == old(inbox)
    {
      if fd != INVALID_SOCKET {
        bufferSize := LARGE_BUFFER_SIZE;
      }
    }

    /** `send`: the number of leading bytes of `data` that went out; 0 on an invalid socket or an error. */
    method Send(data: seq<Byte>) returns (n: nat)
      modifies this
      ensures n <= |data|
      ensures wire == old(wire) + data[..n]
      ensures fd == INVALID_SOCKET ==> n == 0 && acceptQuota == old(acceptQuota)
      ensures fd != INVALID_SOCKET ==>
        && n == (if old(acceptQuota) == [] then 0 else Min(old(acceptQuota)[0], |data|))
        && acceptQuota == (if old(acceptQuota) == [] then [] else old(acceptQuota)[1..])
      ensures fd == old(fd) && bufferSize == old(bufferSize) && inbox == old(inbox)
    {
      n := 0;
      if fd != INVALID_SOCKET {
        if acceptQuota != [] {
          n := Min(acceptQuota[0], |data|);
          acceptQuota := acceptQuota[1..];
        }
        wire := wire + data[..n];
      }
    }

    /**
     * `recv` with room for `capacity` bytes: the next available bytes, at most `capacity` of
     * them; an empty result is the source's 0 (closed, error or invalid socket).  What it
     * returns and what stays available make up what was available before.
     */
    method Recv(capacity: nat) returns (segment: seq<Byte>)
      modifies this
      ensures |segment| <= capacity
      ensures segment + Flatten(inbox) == Flatten(old(inbox))
      ensures fd == INVALID_SOCKET ==> segment == [] && inbox == old(inbox)
      ensures fd != INVALID_SOCKET && old(inbox) != [] && capacity > 0 ==>
        && segment == old(inbox)[0][..Min(|old(inbox)[0]|, capacity)]
        && inbox == (if |old(inbox)[0]| <= capacity then old(inbox)[1..]
                     else [old(inbox)[0][capacity..]] + old(inbox)[1..])
      ensures fd == INVALID_SOCKET || old(inbox) == [] || capacity == 0 ==> inbox == old(inbox)
      ensures Gapless(old(inbox)) ==> Gapless(inbox)
      ensures Gapless(old(inbox)) && segment == [] ==> fd == INVALID_SOCKET || capacity == 0 || old(inbox) == []
      ensures fd == old(fd) && bufferSize == old(bufferSize) && wire == old(wire) && acceptQuota == old(acceptQuota)
    {
      segment := [];
      if fd != INVALID_SOCKET && inbox != [] && capacity > 0 {
        var head := inbox[0];
        var k := Min(|head|, capacity);
        segment := head[..k];
        assert Flatten(inbox) == head + Flatten(inbox[1..]);
        if k == |head| {
          inbox := inbox[1..];
        } else {
          assert head == segment + head[k..];
          assert ([head[k..]] + inbox[1..])[1..] == inbox[1..];
          inbox := [head[k..]] + inbox[1..];
        }
      }
    }
  }

  /**
   * The message-preserving socket that net/Transfer/FileTransfer.hpp is written against
   * (`send(std::string)` and `recv(std::string&)` returning success): each `send` either
   * delivers the whole string as one message or fails, and each `recv` yields one whole
   * message, possibly empty, or fails.
   */
  class MessageSocket {
    var bufferSize: nat
    var sentMessages: seq<seq<Byte>>
    /** Whether each successive `send` succeeds. */
    var sendOutcomes: seq<bool>
    /** The messages successive `recv` calls yield; once the script is exhausted, `recv` fails. */
    var arrivals: seq<seq<Byte>>

    constructor (sendOutcomes: seq<bool>, arrivals: seq<seq<Byte>>)
      ensures bufferSize == BUFFER_SIZE && sentMessages == []
      ensures this.sendOutcomes == sendOutcomes && this.arrivals == arrivals
    {
      bufferSize, sentMessages := BUFFER_SIZE, [];
      this.sendOutcomes, this.arrivals := sendOutcomes, arrivals;
    }

    method SetBufferSize(size: nat)
      modifies this
      ensures bufferSize == size
      ensures sentMessages == old(sentMessages) && sendOutcomes == old(sendOutcomes) && arrivals == old(arrivals)
    {
      bufferSize := size;
    }

    method SendMessage(data: seq<Byte>) returns (ok: bool)
      modifies this
      ensures ok <==> old(sendOutcomes) != [] && old(sendOutcomes)[0]
      ensures sendOutcomes == if old(sendOutcomes) == [] then [] else old(sendOutcomes)[1..]
      ensures sentMessages == old(sentMessages) + (if ok then [data] else [])
      ensures bufferSize == old(bufferSize) && arrivals == old(arrivals)
    {
      ok := false;
      if sendOutcomes != [] {
        ok := sendOutcomes[0];
        sendOutcomes := sendOutcomes[1..];
        if ok {
          sentMessages := sentMessages + [data];
        }
      }
    }

    /** `None` is a failed `recv`. */
    method RecvMessage() returns (message: Option<seq<Byte>>)
      modifies this
      ensures old(arrivals) == [] ==> message.None? && arrivals == []
      ensures old(arrivals) != [] ==>
        && arrivals == old(arrivals)[1..]
        && message == Some(old(arrivals)[0])
      ensures bufferSize == old(bufferSize) && sentMessages == old(sentMessages) && sendOutcomes == old(sendOutcomes)
    {
      if arrivals == [] {
        message := None;
      } else {
        message := Some(arrivals[0]);
        arrivals := arrivals[1..];
      }
    }
  }
}
