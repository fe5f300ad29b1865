/**
 * The server's `Pack` (net/Pack.hpp): a packet object built either from a type and a payload
 * (the encoding constructor) or from received bytes (the decoding constructor, which throws on
 * malformed input), and turned back into bytes by `toString`.
 *
 * The payload is a `std::string` in the source; here it is the byte sequence it holds.  The
 * decoding constructor becomes the static method `Decode`, whose `Failure` outcomes are the
 * source's `runtime_error`s.
 */
module NetPack {
  import opened Bytes
  import opened Wrappers
  import opened Framing

  class Pack {
    var sHead: U16
    var nLength: U32
    var sType: U16
    var sSum: U16
    var strData: seq<Byte>

    /** Header, length and checksum agree with the payload. */
    predicate Valid()
      reads this
    {
      sHead == MAGIC && nLength == LengthField(|strData|) && sSum == Checksum(strData)
    }

    /** `Pack(sType, pData, nSize)`: packs the first `nSize` bytes of `pData`. */
    constructor Encode(ptype: U16, pData: seq<Byte>, nSize: nat)
      requires nSize <= |pData|
      ensures Valid() && sType == ptype && strData == pData[..nSize]
    {
      var sum := AccumulateChecksum(pData[..nSize]);
      sHead := MAGIC;
      nLength := LengthField(nSize);
      sType := ptype;
      strData := if nSize > 0 then pData[..nSize] else [];
      sSum := sum;
    }

    /** The field assignments the decoding constructor makes once every check has passed. */
    constructor Fill(head: U16, length: U32, ptype: U16, data: seq<Byte>, sum: U16)
      ensures sHead == head && nLength == length && sType == ptype && strData == data && sSum == sum
    {
      sHead, nLength, sType, strData, sSum := head, length, ptype, data, sum;
    }

    /**
     * `Pack(pData, nSize)`, with the length check the source intends (see `Framing.Decode`).
     * The constructor never assigns `sHead`; `stale` stands for the indeterminate value the
     * member then holds.
     */
    static method Decode(pData: seq<Byte>, nSize: nat, stale: U16) returns (r: Result<Pack, FramingError>)
      requires nSize <= |pData|
      ensures r.Failure? ==> Framing.Decode(pData[..nSize]) == Failure(r.error)
      ensures r.Success? ==>
        && fresh(r.value)
        && Framing.Decode(pData[..nSize]) == Success(Unpacked(r.value.sType, r.value.strData))
        && r.value.sHead == stale
        && r.value.nLength == LengthField(|r.value.strData|)
        && r.value.sSum == Checksum(r.value.strData)
    {
      var b := pData[..nSize];
      if nSize < MIN_PACKET_SIZE {
        return Failure(InvalidSize);
      }
      if b[0] != 0xFE || b[1] != 0xFF {
        return Failure(InvalidHeader);
      }
      var n := (b[2] as int) * 0x100_0000 + (b[3] as int) * 0x1_0000 + (b[4] as int) * 0x100 + b[5];
      FromBE32Bytes(b[2..6]);
      assert n == DeclaredLength(b);
      if n + 6 > nSize {
        return Failure(Incomplete);
      }
      if n < 4 {
        return Failure(BadLength);
      }
      var ptype := (b[6] as int) * 0x100 + b[7];
      var dataSize := n - 4;
      var data := if dataSize > 0 then b[8..8 + dataSize] else [];
      var sum := AccumulateChecksum(data);
      var checksum := (b[8 + dataSize] as int) * 0x100 + b[9 + dataSize];
      assert checksum == FromBE16(b[n + 4..n + 6]);
      assert ptype == FromBE16(b[6..8]);
      if sum != checksum {
        return Failure(ChecksumError);
      }
      var p := new Pack.Fill(stale, n, ptype, data, sum);
      return Success(p);
    }

    function GetType(): U16
      reads this
    {
      sType
    }

    function GetData(): seq<Byte>
      reads this
    {
      strData
    }

    /** `toString`: the fields, each big-endian, in wire order. */
    method ToString() returns (bs: seq<Byte>)
      ensures bs == BE16(sHead) + BE32(nLength) + BE16(sType) + strData + BE16(sSum)
      ensures Valid() ==> bs == Frame(sType, strData)
    {
      bs := [];
      bs := bs + [sHead / 0x100];
      bs := bs + [sHead % 0x100];
      bs := bs + [nLength / 0x100_0000];
      bs := bs + [(nLength / 0x1_0000) % 0x100];
      bs := bs + [(nLength / 0x100) % 0x100];
      bs := bs + [nLength % 0x100];
      bs := bs + [sType / 0x100];
      bs := bs + [sType % 0x100];
      BE32Bytes(nLength);
      assert bs == BE16(sHead) + BE32(nLength) + BE16(sType);
      bs := bs + strData;
      bs := bs + [sSum / 0x100];
      bs := bs + [sSum % 0x100];
    }
  }

  /**
   * What tests/main/pack.cpp does: pack a payload, serialise it with `toString`, unpack the
   * bytes, and read back the type and the payload.
   */
  method EncodeThenDecode(ptype: U16, payload: seq<Byte>) returns (t: U16, d: seq<Byte>)
    requires |payload| + 4 < TWO32
    ensures t == ptype && d == payload
  {
    var p := new Pack.Encode(ptype, payload, |payload|);
    assert p.strData == payload by {
      assert payload[..|payload|] == payload;
    }
    var bytes := p.ToString();
    assert Decode(bytes) == Success(Unpacked(ptype, payload)) by {
      RoundTrip(ptype, payload, []);
      assert Frame(ptype, payload) + [] == Frame(ptype, payload);
    }
    assert bytes[..|bytes|] == bytes;
    var r := Pack.Decode(bytes, |bytes|, 0);
    if r.Failure? {
      assert false;
    }
    t, d := r.value.GetType(), r.value.GetData();
  }
}
