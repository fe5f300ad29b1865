/**
 * The framed-packet wire format shared by both `Pack` classes:
 *
 *   offset 0  magic    0xFEFF, 2 bytes
 *   offset 2  length   payload size + 4, 4 bytes
 *   offset 6  type     2 bytes
 *   offset 8  payload  length - 4 bytes
 *   then      checksum 16-bit wrapping sum of the payload bytes, 2 bytes
 *
 * every integer big-endian.  This module holds the specification: the byte image of a packet
 * (`Frame`), the decoder (`Decode`), and what is proved about them.  `Decode` is the decoder
 * with the length check the source evidently intends; `DecodeAsWritten` is the check as the
 * source writes it, in 32-bit arithmetic, kept to exhibit where the two differ.
 */
module Framing {
  import opened Bytes
  import opened Wrappers

  const MAGIC: U16 := 0xFEFF
  /** magic (2) + length (4) + type (2) + checksum (2) */
  const MIN_PACKET_SIZE: nat := 10

  datatype FramingError =
    | InvalidSize     // "Invalid packet size": fewer than 10 bytes
    | InvalidHeader   // "Invalid packet header": bytes 0 and 1 are not 0xFE 0xFF
    | Incomplete      // "Incomplete packet": the declared length runs past the input
    | BadLength       // a declared length below 4, which cannot hold type and checksum
    | ChecksumError   // "Checksum error": trailing sum differs from the recomputed one

  /** What a decoded packet exposes through `getType` and `getData`. */
  datatype Unpacked = Unpacked(ptype: U16, data: seq<Byte>)

  /** The running checksum `sSum += (uint8_t) c` over a `uint16_t`, wrapping at each step. */
  function Checksum(s: seq<Byte>): U16
  {
    if s == [] then 0 else (Checksum(s[..|s| - 1]) + s[|s| - 1]) % TWO16
  }

  /** `static_cast<uint32_t>(nSize + 4)`: the length field an encoder stores. */
  function LengthField(payloadSize: nat): U32
  {
    (payloadSize + 4) % TWO32
  }

  /** The byte image of an encoded packet (`toString` / `toByteStream`). */
  function Frame(ptype: U16, data: seq<Byte>): (r: seq<Byte>)
    ensures |r| == |data| + MIN_PACKET_SIZE
  {
    BE16(MAGIC) + BE32(LengthField(|data|)) + BE16(ptype) + data + BE16(Checksum(data))
  }

  function DeclaredLength(b: seq<Byte>): U32
    requires |b| >= 6
  {
    FromBE32(b[2..6])
  }

  predicate HasMagic(b: seq<Byte>)
    requires |b| >= 2
  {
    b[0] == 0xFE && b[1] == 0xFF
  }

  /**
   * The decoding constructor with the intended length check: the comparison
   * `nLength + 6 > nSize` in unbounded arithmetic, and a declared length below 4 rejected.
   * Bytes after `nLength + 6` are ignored.
   */
  function Decode(b: seq<Byte>): Result<Unpacked, FramingError>
  {
    if |b| < MIN_PACKET_SIZE then Failure(InvalidSize)
    else if !HasMagic(b) then Failure(InvalidHeader)
    else
      var n := DeclaredLength(b);
      if n + 6 > |b| then Failure(Incomplete)
      else if n < 4 then Failure(BadLength)
      else
        var data := b[8..n + 4];
        if Checksum(data) != FromBE16(b[n + 4..n + 6]) then Failure(ChecksumError)
        else Success(Unpacked(FromBE16(b[6..8]), data))
  }

  // ---------------------------------------------------------------------------------------------
  // The checksum

  /**
   * The checksum loop both `Pack` classes run: `sSum += static_cast<uint8_t>(c)` over the bytes
   * in order, in a `uint16_t` that wraps at each step.
   */
  method AccumulateChecksum(s: seq<Byte>) returns (sum: U16)
    ensures sum == Checksum(s)
  {
    sum := 0;
    var i := 0;
    while i < |s|
      invariant i <= |s|
      invariant sum == Checksum(s[..i])
    {
      assert s[..i + 1][..i] == s[..i];
      sum := (sum + s[i]) % TWO16;
      i := i + 1;
    }
    assert s[..i] == s;
  }

  lemma ModAdd(a: int, x: int)
    ensures (a % TWO16 + x) % TWO16 == (a + x) % TWO16
  {
    var q := a / TWO16;
    assert a == TWO16 * q + a % TWO16;
    assert a + x == (a % TWO16 + x) + TWO16 * q;
  }

  /** The 16-bit running sum is the plain sum of the unsigned byte values, modulo 65536. */
  lemma {:induction false} ChecksumIsSumMod(s: seq<Byte>)
    ensures Checksum(s) == Sum(s) % TWO16
  {
    if s != [] {
      ChecksumIsSumMod(s[..|s| - 1]);
      ModAdd(Sum(s[..|s| - 1]), s[|s| - 1]);
    }
  }

  lemma {:induction false} SumUpdate(s: seq<Byte>, i: nat, v: Byte)
    requires i < |s|
    ensures Sum(s[i := v]) == Sum(s) - s[i] + v
  {
    var t := s[i := v];
    var k := |s| - 1;
    if i == k {
      assert t[..k] == s[..k];
    } else {
      assert t[..k] == s[..k][i := v];
      SumUpdate(s[..k], i, v);
    }
  }

  lemma ModDistinct(a: int, b: int)
    requires a != b && -TWO16 < a - b < TWO16
    ensures a % TWO16 != b % TWO16
  {
    var qa, qb := a / TWO16, b / TWO16;
    assert a == TWO16 * qa + a % TWO16 && b == TWO16 * qb + b % TWO16;
  }

  /** Changing any one payload byte changes the checksum. */
  lemma ChecksumDetectsByteChange(s: seq<Byte>, i: nat, v: Byte)
    requires i < |s| && v != s[i]
    ensures Checksum(s[i := v]) != Checksum(s)
  {
    ChecksumIsSumMod(s);
    ChecksumIsSumMod(s[i := v]);
    SumUpdate(s, i, v);
    ModDistinct(Sum(s[i := v]), Sum(s));
  }

  // ---------------------------------------------------------------------------------------------
  // Encoding and decoding

  /** Slicing a concatenation of five fields (and a trailer) gives back each field. */
  lemma FieldsOfConcat(a: seq<Byte>, b: seq<Byte>, c: seq<Byte>, d: seq<Byte>, e: seq<Byte>, x: seq<Byte>)
    requires |a| == 2 && |b| == 4 && |c| == 2 && |e| == 2
    ensures var f := a + b + c + d + e + x;
      && f[..2] == a && f[2..6] == b && f[6..8] == c
      && f[8..8 + |d|] == d && f[8 + |d|..10 + |d|] == e
  {
    var f := a + b + c + d + e + x;
    var h := a + b + c;
    assert f == h + (d + (e + x));
    assert f[..8] == h;
    assert f[8..] == d + (e + x);
  }

  /** The two magic bytes, high byte first. */
  lemma MagicBytes()
    ensures BE16(MAGIC) == [0xFE, 0xFF]
  {
  }

  /** Where each field sits in `Frame(ptype, data)`. */
  lemma FrameLayout(ptype: U16, data: seq<Byte>, extra: seq<Byte>)
    ensures var f := Frame(ptype, data) + extra;
      && f[..2] == [0xFE, 0xFF]
      && f[2..6] == BE32(LengthField(|data|))
      && f[6..8] == BE16(ptype)
      && f[8..8 + |data|] == data
      && f[8 + |data|..10 + |data|] == BE16(Checksum(data))
  {
    MagicBytes();
    FieldsOfConcat(BE16(MAGIC), BE32(LengthField(|data|)), BE16(ptype), data, BE16(Checksum(data)), extra);
  }

  /** Below 2^32 - 4 bytes of payload the length field does not wrap. */
  lemma LengthFieldExact(size: nat)
    requires size + 4 < TWO32
    ensures LengthField(size) == size + 4
  {
  }

  /** What the decoder reads from the header and trailer of an encoded packet. */
  lemma FrameFields(ptype: U16, data: seq<Byte>, extra: seq<Byte>)
    requires |data| + 4 < TWO32
    ensures var f := Frame(ptype, data) + extra;
      && |f| >= |data| + MIN_PACKET_SIZE && HasMagic(f) && DeclaredLength(f) == |data| + 4
      && FromBE16(f[6..8]) == ptype && f[8..8 + |data|] == data
      && FromBE16(f[8 + |data|..10 + |data|]) == Checksum(data)
  {
    var f := Frame(ptype, data) + extra;
    FrameLayout(ptype, data, extra);
    assert f[0] == f[..2][0] && f[1] == f[..2][1];
    LengthFieldExact(|data|);
    BE32RoundTrip(|data| + 4);
    assert DeclaredLength(f) == FromBE32(BE32(|data| + 4));
    BE16RoundTrip(ptype);
    BE16RoundTrip(Checksum(data));
  }

  /** How `Decode` treats an input whose header fields describe `data` followed by a checksum `sum`. */
  lemma DecodeLaidOut(b: seq<Byte>, ptype: U16, data: seq<Byte>, sum: U16)
    requires |b| >= |data| + MIN_PACKET_SIZE && HasMagic(b) && DeclaredLength(b) == |data| + 4
    requires FromBE16(b[6..8]) == ptype && b[8..8 + |data|] == data
    requires FromBE16(b[8 + |data|..10 + |data|]) == sum
    ensures Decode(b) == if Checksum(data) == sum then Success(Unpacked(ptype, data)) else Failure(ChecksumError)
  {
  }

  /** Decoding what the encoder emits, followed by any trailing bytes, gives back type and payload. */
  lemma RoundTrip(ptype: U16, data: seq<Byte>, extra: seq<Byte>)
    requires |data| + 4 < TWO32
    ensures Decode(Frame(ptype, data) + extra) == Success(Unpacked(ptype, data))
  {
    FrameFields(ptype, data, extra);
    DecodeLaidOut(Frame(ptype, data) + extra, ptype, data, Checksum(data));
  }

  /** The prefix a decoder reads, cut at the field boundaries. */
  lemma SplitFields(b: seq<Byte>, n: nat)
    requires 4 <= n && n + 6 <= |b|
    ensures b[..n + 6] == b[..2] + b[2..6] + b[6..8] + b[8..n + 4] + b[n + 4..n + 6]
  {
  }

  /** Conversely, a successful decode means the input starts with the frame of its result. */
  lemma DecodeSound(b: seq<Byte>)
    requires Decode(b).Success?
    ensures var u := Decode(b).value;
      |u.data| + 4 < TWO32 && Frame(u.ptype, u.data) <= b
  {
    var u := Decode(b).value;
    var n := DeclaredLength(b);
    assert u.data == b[8..n + 4] && u.ptype == FromBE16(b[6..8]);
    assert Checksum(u.data) == FromBE16(b[n + 4..n + 6]);
    LengthFieldExact(|u.data|);
    FromBE32Injective(b[2..6]);
    FromBE16Injective(b[6..8]);
    FromBE16Injective(b[n + 4..n + 6]);
    MagicBytes();
    assert b[..2] == BE16(MAGIC);
    SplitFields(b, n);
  }

  /** Altering one payload byte of an encoded packet makes decoding fail with a checksum error. */
  lemma CorruptedPayloadRejected(ptype: U16, data: seq<Byte>, i: nat, v: Byte)
    requires |data| + 4 < TWO32 && i < |data| && v != data[i]
    ensures Decode(Frame(ptype, data)[8 + i := v]) == Failure(ChecksumError)
  {
    var f := Frame(ptype, data);
    var g := f[8 + i := v];
    FrameFields(ptype, data, []);
    assert f + [] == f;
    assert g[2..6] == f[2..6] && g[6..8] == f[6..8];
    assert g[8 + |data|..10 + |data|] == f[8 + |data|..10 + |data|];
    assert g[8..8 + |data|] == data[i := v];
    ChecksumDetectsByteChange(data, i, v);
    DecodeLaidOut(g, ptype, data[i := v], Checksum(data));
  }

  /** An input whose declared length runs past its end is reported incomplete. */
  lemma DecodeIncomplete(b: seq<Byte>)
    requires |b| >= MIN_PACKET_SIZE && HasMagic(b) && DeclaredLength(b) + 6 > |b|
    ensures Decode(b) == Failure(Incomplete)
  {
  }

  /** A strict prefix of an encoded packet is never accepted: it is too short or incomplete. */
  lemma TruncatedFrameNeedsMore(ptype: U16, data: seq<Byte>, k: nat)
    requires |data| + 4 < TWO32 && k < |data| + MIN_PACKET_SIZE
    ensures Decode(Frame(ptype, data)[..k]) ==
      if k < MIN_PACKET_SIZE then Failure(InvalidSize) else Failure(Incomplete)
  {
    var f := Frame(ptype, data);
    if k >= MIN_PACKET_SIZE {
      FrameFields(ptype, data, []);
      assert f + [] == f;
      var g := f[..k];
      assert g[0] == f[0] && g[1] == f[1] && g[2..6] == f[2..6];
      DecodeIncomplete(g);
    }
  }

  // ---------------------------------------------------------------------------------------------
  // The length check as written

  datatype AsWrittenOutcome = Decoded(packet: Unpacked) | Rejected(error: FramingError) | ReadsPastEnd

  function Lift(r: Result<Unpacked, FramingError>): AsWrittenOutcome
  {
    match r
    case Success(u) => Decoded(u)
    case Failure(e) => Rejected(e)
  }

  /**
   * The decoding constructor exactly as written: `nLength + 6` is computed in `uint32_t` and
   * wraps, `nLength - 4` is computed in `uint32_t` and wraps, and nothing rejects a length
   * below 4.  When the data size so computed reaches past the input, the source copies and
   * sums bytes beyond the buffer: the outcome `ReadsPastEnd`.
   */
  function DecodeAsWritten(b: seq<Byte>): AsWrittenOutcome
  {
    if |b| < MIN_PACKET_SIZE then Rejected(InvalidSize)
    else if !HasMagic(b) then Rejected(InvalidHeader)
    else
      var n := DeclaredLength(b);
      if (n + 6) % TWO32 > |b| then Rejected(Incomplete)
      else
        var dataSize := (n - 4) % TWO32;
        if 10 + dataSize > |b| then ReadsPastEnd
        else
          var data := b[8..8 + dataSize];
          if Checksum(data) != FromBE16(b[8 + dataSize..10 + dataSize]) then Rejected(ChecksumError)
          else Decoded(Unpacked(FromBE16(b[6..8]), data))
  }

  /** Where the declared length is between 4 and 2^32 - 7, the code as written is the intended decoder. */
  lemma AsWrittenAgreesOnSaneLengths(b: seq<Byte>)
    requires |b| >= MIN_PACKET_SIZE && HasMagic(b) ==> 4 <= DeclaredLength(b) < TWO32 - 6
    ensures DecodeAsWritten(b) == Lift(Decode(b))
  {
  }

  /** A declared length of 0 passes every check as written, and the payload copy runs 2^32 - 4 bytes past the input. */
  lemma ZeroLengthReadsPastEnd()
    ensures var b: seq<Byte> := [0xFE, 0xFF, 0, 0, 0, 0, 0, 1, 0, 0];
      DecodeAsWritten(b) == ReadsPastEnd && Decode(b) == Failure(BadLength)
  {
    var b: seq<Byte> := [0xFE, 0xFF, 0, 0, 0, 0, 0, 1, 0, 0];
    assert b[2..6] == [0, 0, 0, 0];
    assert b[2..6][..2] == [0, 0] && b[2..6][2..] == [0, 0];
  }

  /** A declared length of 0xFFFFFFFA wraps `nLength + 6` to 0, so the incomplete-packet check passes. */
  lemma WrappedLengthReadsPastEnd()
    ensures var b: seq<Byte> := [0xFE, 0xFF, 0xFF, 0xFF, 0xFF, 0xFA, 0, 1, 0, 0];
      DecodeAsWritten(b) == ReadsPastEnd && Decode(b) == Failure(Incomplete)
  {
    var b: seq<Byte> := [0xFE, 0xFF, 0xFF, 0xFF, 0xFF, 0xFA, 0, 1, 0, 0];
    assert b[2..6] == [0xFF, 0xFF, 0xFF, 0xFA];
    assert b[2..6][..2] == [0xFF, 0xFF] && b[2..6][2..] == [0xFF, 0xFA];
    assert DeclaredLength(b) == 0xFFFF_FFFA;
  }
}
