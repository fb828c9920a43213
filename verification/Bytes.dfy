/** Going through a bit-vector byte and back. */
module ByteConversions {

  lemma ByteOfInt(n: int)
    requires 0 <= n < 256
    ensures (n as bv8) as int == n
  {
  }
}

/** Bytes and the big-endian 32-bit headers that every framing layer shares. */
module Bytes {
  import opened ByteConversions

  type Byte = bv8

  const U32_LIMIT: nat := 0x1_0000_0000
  const U64_MAX: nat := 0xffff_ffff_ffff_ffff

  type U32 = n: nat | n < 0x1_0000_0000
  type U64 = n: nat | n <= 0xffff_ffff_ffff_ffff

  /** `u32::to_be_bytes` of a length. */
  function LengthToBe(n: U32): (bytes: seq<Byte>)
    ensures |bytes| == 4
  {
    [(n / 0x100_0000) as Byte, (n / 0x1_0000 % 256) as Byte, (n / 256 % 256) as Byte, (n % 256) as Byte]
  }

  /** `u32::from_be_bytes` of a length. */
  function LengthFromBe(bytes: seq<Byte>): nat
    requires |bytes| == 4
  {
    ((bytes[0] as nat * 256 + bytes[1] as nat) * 256 + bytes[2] as nat) * 256 + bytes[3] as nat
  }

  lemma Base256Digits(n: U32)
    ensures ((n / 0x100_0000 * 256 + n / 0x1_0000 % 256) * 256 + n / 256 % 256) * 256 + n % 256 == n
  {
  }

  lemma LengthRoundTrip(n: U32)
    ensures LengthFromBe(LengthToBe(n)) == n
  {
    ByteOfInt(n / 0x100_0000);
    ByteOfInt(n / 0x1_0000 % 256);
    ByteOfInt(n / 256 % 256);
    ByteOfInt(n % 256);
    Base256Digits(n);
  }

  /** The first byte counts most. */
  lemma BigEndianLength(b: seq<Byte>)
    requires |b| == 4
    ensures LengthFromBe(b) == 0x100_0000 * (b[0] as nat) + 0x1_0000 * (b[1] as nat) + 0x100 * (b[2] as nat) + (b[3] as nat)
  {
  }

  /** `u32::to_be_bytes` of a checksum word. */
  function WordToBe(w: bv32): (bytes: seq<Byte>)
    ensures |bytes| == 4
  {
    [(w >> 24) as Byte, ((w >> 16) & 0xff) as Byte, ((w >> 8) & 0xff) as Byte, (w & 0xff) as Byte]
  }

  /** `u32::from_be_bytes` of a checksum word. */
  function WordFromBe(bytes: seq<Byte>): bv32
    requires |bytes| == 4
  {
    (bytes[0] as bv32 << 24) | (bytes[1] as bv32 << 16) | (bytes[2] as bv32 << 8) | (bytes[3] as bv32)
  }

  lemma WordRoundTrip(w: bv32)
    ensures WordFromBe(WordToBe(w)) == w
  {
  }

  /** The first byte holds the topmost bits. */
  lemma BigEndianWord(w: bv32)
    ensures var b := WordToBe(w);
      && b[0] as bv32 == w >> 24 && b[1] as bv32 == (w << 8) >> 24
      && b[2] as bv32 == (w << 16) >> 24 && b[3] as bv32 == (w << 24) >> 24
  {
  }
}
