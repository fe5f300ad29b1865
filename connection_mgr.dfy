/**
 * The connection registry (net/ConnectionMgr.hpp): a map from user id to the client's socket,
 * an online flag and the peer address, with a periodic two-phase liveness sweep.  The server
 * keeps two of them, one for chat connections and one for file-transfer connections.
 *
 * A socket is its descriptor number; closing one is recorded in `closedSockets` as the pair
 * (uid, descriptor), which is how the model makes "closes its socket" visible.  The peer
 * address that `getpeername` reports is an input (`peer`).
 */
module ConnectionMgr {
  import opened Bytes
  import opened Wrappers
  import opened Channel

  datatype NetInfo = NetInfo(socket: int, online: bool, ip: string)

  type Registry = map<U32, NetInfo>

  /** `Socket::getRemoteIp`: "unknown" for an invalid socket or when the peer lookup fails. */
  function RemoteIp(socket: int, peer: Option<string>): (ip: string)
    ensures socket == INVALID_SOCKET ==> ip == "unknown"
    ensures socket != INVALID_SOCKET && peer.Some? ==> ip == peer.value
  {
    if socket == INVALID_SOCKET then "unknown"
    else if peer.None? then "unknown"
    else peer.value
  }

  /** `add`'s `emplace`: a fresh uid comes in online; an existing entry is left as it was. */
  function Emplaced(m: Registry, uid: U32, socket: int, peer: Option<string>): (r: Registry)
    ensures uid in r && r.Keys == m.Keys + {uid}
    ensures uid in m ==> r == m
    ensures uid !in m ==> r[uid] == NetInfo(socket, true, RemoteIp(socket, peer))
    ensures forall u :: u in m && u != uid ==> r[u] == m[u]
  {
    if uid in m then m else m[uid := NetInfo(socket, true, RemoteIp(socket, peer))]
  }

  /** `setOnline`: only that uid's flag changes; an unknown uid leaves the registry as it was. */
  function WithOnline(m: Registry, uid: U32, isOnline: bool): (r: Registry)
    ensures r.Keys == m.Keys
    ensures uid in m ==> r[uid] == m[uid].(online := isOnline)
    ensures forall u :: u in m && u != uid ==> r[u] == m[u]
  {
    if uid in m then m[uid := m[uid].(online := isOnline)] else m
  }

  /** What one sweep leaves: the entries that were online, each now marked offline. */
  function Swept(m: Registry): Registry
  {
    map u | u in m && m[u].online :: m[u].(online := false)
  }

  /** The sockets one sweep closes: those of offline entries (closing an invalid socket is a no-op). */
  function Evicted(m: Registry): set<(U32, int)>
  {
    set u | u in m && !m[u].online && m[u].socket != INVALID_SOCKET :: (u, m[u].socket)
  }

  /** The registry part-way through a sweep, after the entries in `done` have been visited. */
  function PartlySwept(m: Registry, done: set<U32>): Registry
  {
    map u | u in m && (u !in done || m[u].online) :: if u in done then m[u].(online := false) else m[u]
  }

  function PartlyEvicted(m: Registry, done: set<U32>): set<(U32, int)>
  {
    set u | u in m && u in done && !m[u].online && m[u].socket != INVALID_SOCKET :: (u, m[u].socket)
  }

  class Connections {
    var uidToNetInfo: Registry
    /** Every (uid, descriptor) whose socket this registry has closed. */
    var closedSockets: set<(U32, int)>

    constructor ()
      ensures uidToNetInfo == map[] && closedSockets == {}
    {
      uidToNetInfo, closedSockets := map[], {};
    }

    /** `add`: `emplace` inserts a fresh uid online and leaves an existing entry as it was. */
    method Add(uid: U32, socket: int, peer: Option<string>)
      modifies this
      ensures uidToNetInfo == Emplaced(old(uidToNetInfo), uid, socket, peer)
      ensures closedSockets == old(closedSockets)
    {
      var ip := RemoteIp(socket, peer);
      if uid !in uidToNetInfo {
        uidToNetInfo := uidToNetInfo[uid := NetInfo(socket, true, ip)];
      }
    }

    /** `getSocket`: the stored socket, or an invalid one for an unknown uid. */
    method GetSocket(uid: U32) returns (socket: int)
      ensures uid in uidToNetInfo ==> socket == uidToNetInfo[uid].socket
      ensures uid !in uidToNetInfo ==> socket == INVALID_SOCKET
    {
      if uid in uidToNetInfo {
        socket := uidToNetInfo[uid].socket;
      } else {
        socket := INVALID_SOCKET;
      }
    }

    /** `setOnline`: changes only that uid's flag; an unknown uid is a no-op. */
    method SetOnline(uid: U32, isOnline: bool)
      modifies this
      ensures uidToNetInfo == WithOnline(old(uidToNetInfo), uid, isOnline)
      ensures closedSockets == old(closedSockets)
    {
      if uid in uidToNetInfo {
        uidToNetInfo := uidToNetInfo[uid := uidToNetInfo[uid].(online := isOnline)];
      }
    }

    /** `removeConnection`: closes that uid's socket and erases only that key. */
    method RemoveConnection(uid: U32)
      modifies this
      ensures uidToNetInfo == old(uidToNetInfo) - {uid}
      ensures closedSockets == old(closedSockets) +
        if uid in old(uidToNetInfo) && old(uidToNetInfo)[uid].socket != INVALID_SOCKET
        then {(uid, old(uidToNetInfo)[uid].socket)} else {}
    {
      if uid in uidToNetInfo {
        var socket := uidToNetInfo[uid].socket;
        if socket != INVALID_SOCKET {
          closedSockets := closedSockets + {(uid, socket)};
        }
        uidToNetInfo := uidToNetInfo - {uid};
      }
    }

    /** `getConnections`: a snapshot copy; the registry is not changed. */
    method GetConnections() returns (snapshot: Registry)
      ensures snapshot == uidToNetInfo
    {
      snapshot := uidToNetInfo;
    }

    /**
     * `scanAndCloseInactive`: one pass over the entries that closes and erases every offline
     * entry and marks every other entry offline.
     */
    method ScanAndCloseInactive()
      modifies this
      ensures uidToNetInfo == Swept(old(uidToNetInfo))
      ensures closedSockets == old(closedSockets) + Evicted(old(uidToNetInfo))
    {
      ghost var m0 := uidToNetInfo;
      var pending := uidToNetInfo.Keys;
      ghost var done: set<U32> := {};
      while pending != {}
        invariant pending !! done && pending + done == m0.Keys
        invariant uidToNetInfo == PartlySwept(m0, done)
        invariant closedSockets == old(closedSockets) + PartlyEvicted(m0, done)
        decreases pending
      {
        var uid :| uid in pending;
        var info := uidToNetInfo[uid];
        if !info.online {
          if info.socket != INVALID_SOCKET {
            closedSockets := closedSockets + {(uid, info.socket)};
          }
          uidToNetInfo := uidToNetInfo - {uid};
        } else {
          uidToNetInfo := uidToNetInfo[uid := info.(online := false)];
        }
        pending := pending - {uid};
        done := done + {uid};
      }
      assert PartlySwept(m0, done) == Swept(m0);
      assert PartlyEvicted(m0, done) == Evicted(m0);
    }
  }

  // -----------------------------------------------------------------------------------------------
  // Liveness: what repeated sweeps do

  /** After a sweep the survivors are exactly the previously online uids, all now offline, sockets kept. */
  lemma SweepKeepsOnlineOnly(m: Registry)
    ensures Swept(m).Keys == set u | u in m && m[u].online
    ensures forall u :: u in Swept(m) ==> !Swept(m)[u].online && Swept(m)[u].socket == m[u].socket
  {
  }

  /** Two sweeps with nothing in between empty the registry. */
  lemma TwoSweepsEmpty(m: Registry)
    ensures Swept(Swept(m)) == map[]
  {
    assert Swept(Swept(m)).Keys == {};
  }

  /** The heartbeats received between two sweeps: each named uid present is set online. */
  function Refreshed(m: Registry, beats: set<U32>): Registry
  {
    map u | u in m :: if u in beats then m[u].(online := true) else m[u]
  }

  /** Sweep intervals: in each, the listed heartbeats arrive and then the sweep runs. */
  function Rounds(m: Registry, beats: seq<set<U32>>): Registry
    decreases |beats|
  {
    if beats == [] then m else Rounds(Swept(Refreshed(m, beats[0])), beats[1..])
  }

  /** A client whose heartbeat arrives in every interval is never evicted and keeps its socket. */
  lemma {:induction false} HeartbeatKeepsAlive(m: Registry, beats: seq<set<U32>>, uid: U32)
    requires uid in m
    requires forall i :: 0 <= i < |beats| ==> uid in beats[i]
    ensures uid in Rounds(m, beats) && Rounds(m, beats)[uid].socket == m[uid].socket
    decreases |beats|
  {
    if beats != [] {
      var next := Swept(Refreshed(m, beats[0]));
      assert uid in next && next[uid].socket == m[uid].socket;
      HeartbeatKeepsAlive(next, beats[1..], uid);
    }
  }

  /** A client that misses the heartbeats of two consecutive intervals is gone after the second sweep. */
  lemma MissedTwoHeartbeatsEvicts(m: Registry, first: set<U32>, second: set<U32>, uid: U32)
    requires uid !in first && uid !in second
    ensures uid !in Rounds(m, [first, second])
  {
    var once := Swept(Refreshed(m, first));
    var twice := Swept(Refreshed(once, second));
    assert uid in once ==> !once[uid].online;
    assert uid !in twice;
    assert [first, second][1..] == [second];
    assert Rounds(m, [first, second]) == Rounds(once, [second]);
    assert [second][1..] == [];
    assert Rounds(once, [second]) == Rounds(twice, []) == twice;
  }
}
