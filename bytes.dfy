/**
 * Fixed-width unsigned integers and their byte encodings.
 *
 * The source works on `char` buffers whose elements it casts to `uint8_t`; a byte is therefore
 * modelled as an integer in [0, 256).  The C++ `uint16_t`, `uint32_t` and `uint64_t` fields are
 * integer subset types, and every place where the source relies on their wrap-around is written
 * out with an explicit `%`.
 */
module Bytes {

  type Byte = x: int | 0 <= x < 0x100
  type U16 = x: int | 0 <= x < 0x1_0000
  type U32 = x: int | 0 <= x < 0x1_0000_0000
  type U64 = x: int | 0 <= x < 0x1_0000_0000_0000_0000

  const TWO16: int := 0x1_0000
  const TWO32: int := 0x1_0000_0000

  /** Big-endian two-byte encoding (high byte first), as `(x >> 8) & 0xFF`, `x & 0xFF`. */
  function BE16(x: U16): (r: seq<Byte>)
    ensures |r| == 2
  {
    [x / 0x100, x % 0x100]
  }

  function FromBE16(b: seq<Byte>): (x: U16)
    requires |b| == 2
  {
    (b[0] as int) * 0x100 + b[1]
  }

  /** Big-endian four-byte encoding: the high half, then the low half. */
  function BE32(x: U32): (r: seq<Byte>)
    ensures |r| == 4
  {
    BE16(x / TWO16) + BE16(x % TWO16)
  }

  function FromBE32(b: seq<Byte>): (x: U32)
    requires |b| == 4
  {
    (FromBE16(b[..2]) as int) * TWO16 + FromBE16(b[2..])
  }

  lemma BE16RoundTrip(x: U16)
    ensures FromBE16(BE16(x)) == x
  {
  }

  lemma FromBE16Injective(b: seq<Byte>)
    requires |b| == 2
    ensures BE16(FromBE16(b)) == b
  {
  }

  lemma BE32RoundTrip(x: U32)
    ensures FromBE32(BE32(x)) == x
  {
    var r := BE32(x);
    assert r[..2] == BE16(x / TWO16) && r[2..] == BE16(x % TWO16);
    BE16RoundTrip(x / TWO16);
    BE16RoundTrip(x % TWO16);
  }

  lemma FromBE32Injective(b: seq<Byte>)
    requires |b| == 4
    ensures BE32(FromBE32(b)) == b
  {
    var hi, lo := FromBE16(b[..2]), FromBE16(b[2..]);
    var x := FromBE32(b);
    assert x / TWO16 == hi && x % TWO16 == lo;
    FromBE16Injective(b[..2]);
    FromBE16Injective(b[2..]);
    assert b == b[..2] + b[2..];
  }

  /** `BE32` is the four shift-and-mask bytes `(x >> 24) & 0xFF` ... `x & 0xFF`. */
  lemma BE32Bytes(x: U32)
    ensures BE32(x) == [x / 0x100_0000, (x / 0x1_0000) % 0x100, (x / 0x100) % 0x100, x % 0x100]
  {
    var hi, lo := x / TWO16, x % TWO16;
    assert x == hi * TWO16 + lo;
    assert hi / 0x100 == x / 0x100_0000;
    assert lo / 0x100 == (x / 0x100) % 0x100 by {
      assert x / 0x100 == hi * 0x100 + lo / 0x100;
    }
    assert lo % 0x100 == x % 0x100;
  }

  /** `FromBE32` is the shift-and-or `(b0 << 24) | (b1 << 16) | (b2 << 8) | b3` of four bytes. */
  lemma FromBE32Bytes(b: seq<Byte>)
    requires |b| == 4
    ensures FromBE32(b) == (b[0] as int) * 0x100_0000 + (b[1] as int) * 0x1_0000 + (b[2] as int) * 0x100 + b[3]
  {
    assert b[..2] == [b[0], b[1]] && b[2..] == [b[2], b[3]];
  }

  /**
   * The host-order eight-byte image that `memcpy` makes of a `uint64_t`; the model fixes
   * little-endian order (the x86 and ARM hosts the server targets): low half first.
   */
  function SizeHeader(n: U64): (r: seq<Byte>)
    ensures |r| == 8
  {
    LE32(n % TWO32) + LE32(n / TWO32)
  }

  function FromSizeHeader(b: seq<Byte>): (n: U64)
    requires |b| == 8
  {
    FromLE32(b[..4]) + (FromLE32(b[4..]) as int) * TWO32
  }

  function LE32(x: U32): (r: seq<Byte>)
    ensures |r| == 4
  {
    [x % 0x100, (x % TWO16) / 0x100] + [(x / TWO16) % 0x100, (x / TWO16) / 0x100]
  }

  function FromLE32(b: seq<Byte>): (x: U32)
    requires |b| == 4
  {
    b[0] + (b[1] as int) * 0x100 + ((b[2] as int) + (b[3] as int) * 0x100) * TWO16
  }

  lemma LE32RoundTrip(x: U32)
    ensures FromLE32(LE32(x)) == x
  {
    var lo, hi := x % TWO16, x / TWO16;
    assert lo % 0x100 + (lo / 0x100) * 0x100 == lo;
    assert hi % 0x100 + (hi / 0x100) * 0x100 == hi;
  }

  /** The eight-byte size header round-trips. */
  lemma SizeHeaderRoundTrip(n: U64)
    ensures FromSizeHeader(SizeHeader(n)) == n
  {
    var r := SizeHeader(n);
    assert r[..4] == LE32(n % TWO32) && r[4..] == LE32(n / TWO32);
    LE32RoundTrip(n % TWO32);
    LE32RoundTrip(n / TWO32);
  }

  /** The plain sum of the bytes of `s`, taken as unsigned values. */
  function Sum(s: seq<Byte>): nat
  {
    if s == [] then 0 else Sum(s[..|s| - 1]) + s[|s| - 1]
  }

  function Min(a: int, b: int): int
  {
    if a < b then a else b
  }
}
