/**
 * The console client's `Pack` (IMClientConsole/Pack.hpp): the same wire format as the server's,
 * over a `std::vector<char>` instead of a `std::string`.  It is modelled on its own, with the
 * fields the source gives it, and `TwinsAgree` shows that both classes put the same bytes on
 * the wire.
 */
module ClientPack {
  import opened Bytes
  import opened Wrappers
  import opened Framing
  import NetPack

  class Pack {
    var sHead: U16
    var nLength: U32
    var sType: U16
    var sSum: U16
    var byteData: seq<Byte>

    /** Header, length and checksum agree with the payload. */
    predicate Valid()
      reads this
    {
      sHead == MAGIC && nLength == LengthField(|byteData|) && sSum == Checksum(byteData)
    }

    /** `Pack(sType, data)`: copies the whole vector. */
    constructor Encode(ptype: U16, data: seq<Byte>)
      ensures Valid() && sType == ptype && byteData == data
    {
      var sum := AccumulateChecksum(data);
      sHead := MAGIC;
      nLength := LengthField(|data|);
      sType := ptype;
      byteData := data;
      sSum := sum;
    }

    /** The field assignments the decoding constructor makes once every check has passed. */
    constructor Fill(head: U16, length: U32, ptype: U16, data: seq<Byte>, sum: U16)
      ensures sHead == head && nLength == length && sType == ptype && byteData == data && sSum == sum
    {
      sHead, nLength, sType, byteData, sSum := head, length, ptype, data, sum;
    }

    /**
     * `Pack(byteStream)`, with the length check the source intends (see `Framing.Decode`).
     * As in the server's class, `sHead` is never assigned; `stale` is the value it holds.
     */
    static method Decode(byteStream: seq<Byte>, stale: U16) returns (r: Result<Pack, FramingError>)
      ensures r.Failure? ==> Framing.Decode(byteStream) == Failure(r.error)
      ensures r.Success? ==>
        && fresh(r.value)
        && Framing.Decode(byteStream) == Success(Unpacked(r.value.sType, r.value.byteData))
        && r.value.sHead == stale
        && r.value.nLength == LengthField(|r.value.byteData|)
        && r.value.sSum == Checksum(r.value.byteData)
    {
      var b := byteStream;
      if |b| < MIN_PACKET_SIZE {
        return Failure(InvalidSize);
      }
      if b[0] != 0xFE || b[1] != 0xFF {
        return Failure(InvalidHeader);
      }
      var n := (b[2] as int) * 0x100_0000 + (b[3] as int) * 0x1_0000 + (b[4] as int) * 0x100 + b[5];
      FromBE32Bytes(b[2..6]);
      assert n == DeclaredLength(b);
      if n + 6 > |b| {
        return Failure(Incomplete);
      }
      if n < 4 {
        return Failure(BadLength);
      }
      var ptype := (b[6] as int) * 0x100 + b[7];
      var dataSize := n - 4;
      var data := if dataSize > 0 then b[8..8 + dataSize] else [];
      var sum := AccumulateChecksum(data);
      var checksum := (b[8 + dataSize] as int) * 0x100 + b[9 + dataSize];
      assert checksum == FromBE16(b[n + 4..n + 6]);
      assert ptype == FromBE16(b[6..8]);
      if sum != checksum {
        return Failure(ChecksumError);
      }
      var p := new Pack.Fill(stale, n, ptype, data, sum);
      return Success(p);
    }

    function GetType(): U16
      reads this
    {
      sType
    }

    function GetData(): seq<Byte>
      reads this
    {
      byteData
    }

    /** `toByteStream`: the fields, each big-endian, in wire order. */
    method ToByteStream() returns (bs: seq<Byte>)
      ensures bs == BE16(sHead) + BE32(nLength) + BE16(sType) + byteData + BE16(sSum)
      ensures Valid() ==> bs == Frame(sType, byteData)
    {
      bs := [];
      bs := bs + [sHead / 0x100];
      bs := bs + [sHead % 0x100];
      bs := bs + [nLength / 0x100_0000];
      bs := bs + [(nLength / 0x1_0000) % 0x100];
      bs := bs + [(nLength / 0x100) % 0x100];
      bs := bs + [nLength % 0x100];
      bs := bs + [sType / 0x100];
      bs := bs + [sType % 0x100];
      BE32Bytes(nLength);
      assert bs == BE16(sHead) + BE32(nLength) + BE16(sType);
      bs := bs + byteData;
      bs := bs + [sSum / 0x100];
      bs := bs + [sSum % 0x100];
    }
  }

  /** For equal type and payload, the client's `toByteStream` and the server's `toString` agree byte for byte. */
  method TwinsAgree(ptype: U16, payload: seq<Byte>) returns (client: seq<Byte>, server: seq<Byte>)
    ensures client == server == Frame(ptype, payload)
  {
    var c := new Pack.Encode(ptype, payload);
    client := c.ToByteStream();
    var s := new NetPack.Pack.Encode(ptype, payload, |payload|);
    assert payload[..|payload|] == payload;
    server := s.ToString();
  }

  /**
   * A packet the client encodes is decoded by the server's class, and the other way round, to
   * the same type and payload.
   */
  method CrossDecode(ptype: U16, payload: seq<Byte>)
    returns (atServer: Result<NetPack.Pack, FramingError>, atClient: Result<Pack, FramingError>)
    requires |payload| + 4 < TWO32
    ensures atServer.Success? && atServer.value.GetType() == ptype && atServer.value.GetData() == payload
    ensures atClient.Success? && atClient.value.GetType() == ptype && atClient.value.GetData() == payload
  {
    var client, server := TwinsAgree(ptype, payload);
    assert Framing.Decode(client) == Success(Unpacked(ptype, payload)) by {
      RoundTrip(ptype, payload, []);
      assert Frame(ptype, payload) + [] == Frame(ptype, payload);
    }
    assert client[..|client|] == client;
    atServer := NetPack.Pack.Decode(client, |client|, 0);
    atClient := Pack.Decode(server, 0);
  }
}
