/**
 The bitwise CRC-32 (section 8 of RFC 1952) that guards decision-log records and local RPC
 frames, and the error-detection guarantee the two readers rely on.
 */
module Crc32 {
  import opened Bytes

  const POLYNOMIAL: bv32 := 0xedb8_8320

  /** One step of the register: the polynomial is folded in when a one is shifted out. */
  function Shift(c: bv32): bv32 {
    (c >> 1) ^ Feedback(c)
  }

  function Feedback(c: bv32): bv32 {
    if c & 1 == 1 then POLYNOMIAL else 0
  }

  /** The inverse of `Shift`: the top bit tells whether the polynomial was folded in. */
  function Unshift(d: bv32): bv32 {
    if d & 0x8000_0000 != 0 then ((d ^ POLYNOMIAL) << 1) | 1 else d << 1
  }

  function Xor(a: bv32, b: bv32): bv32 {
    a ^ b
  }

  function ShiftBy(c: bv32, n: nat): bv32 {
    if n == 0 then c else Shift(ShiftBy(c, n - 1))
  }

  function AbsorbByte(c: bv32, b: Byte): bv32 {
    ShiftBy(Xor(c, b as bv32), 8)
  }

  function Absorb(c: bv32, data: seq<Byte>): bv32 {
    if data == [] then c else AbsorbByte(Absorb(c, data[..|data| - 1]), data[|data| - 1])
  }

  function Checksum(data: seq<Byte>): bv32 {
    Complement(Absorb(0xffff_ffff, data))
  }

  function Complement(c: bv32): bv32 {
    !c
  }

  method Compute(data: seq<Byte>) returns (crc: bv32)
    ensures crc == Checksum(data)
  {
    crc := 0xffff_ffff;
    for i := 0 to |data|
      invariant crc == Absorb(0xffff_ffff, data[..i])
    {
      assert data[..i + 1][..i] == data[..i];
      crc := ComputeByte(crc, data[i]);
    }
    assert data[..|data|] == data;
    crc := !crc;
  }

  /** The source's borrow mask selects the feedback. */
  lemma MaskSelects(c: bv32)
    ensures POLYNOMIAL & (0 - (c & 1)) == Feedback(c)
  {
  }

  /** The inner loop over one byte. */
  method ComputeByte(start: bv32, b: Byte) returns (crc: bv32)
    ensures crc == AbsorbByte(start, b)
  {
    crc := start ^ (b as bv32);
    for j := 0 to 8
      invariant crc == ShiftBy(Xor(start, b as bv32), j)
    {
      MaskSelects(crc);
      var mask: bv32 := 0 - (crc & 1);
      crc := (crc >> 1) ^ (POLYNOMIAL & mask);
    }
  }

  // ----- Each shift is a bijection, and it is linear over exclusive or -----

  lemma UnshiftShift(c: bv32)
    ensures Unshift(Shift(c)) == c
  {
  }

  lemma {:induction false} ShiftByInjective(a: bv32, b: bv32, n: nat)
    requires ShiftBy(a, n) == ShiftBy(b, n)
    ensures a == b
  {
    hide Shift, Unshift;
    if n > 0 {
      UnshiftShift(ShiftBy(a, n - 1));
      UnshiftShift(ShiftBy(b, n - 1));
      ShiftByInjective(a, b, n - 1);
    }
  }

  lemma XorCancel(a: bv32, b: bv32, c: bv32)
    requires Xor(a, c) == Xor(b, c)
    ensures a == b
  {
    assert (a ^ c) ^ c == a;
    assert (b ^ c) ^ c == b;
  }

  lemma XorSwap(p: bv32, q: bv32, r: bv32, s: bv32)
    ensures (p ^ q) ^ (r ^ s) == (p ^ r) ^ (q ^ s)
  {
  }

  lemma FeedbackLinear(a: bv32, b: bv32)
    ensures Feedback(a ^ b) == Feedback(a) ^ Feedback(b)
  {
    assert (a ^ b) & 1 == (a & 1) ^ (b & 1);
  }

  lemma ShiftLinear(a: bv32, b: bv32)
    ensures Shift(Xor(a, b)) == Xor(Shift(a), Shift(b))
  {
    hide Feedback;
    FeedbackLinear(a, b);
    assert (a ^ b) >> 1 == (a >> 1) ^ (b >> 1);
    XorSwap(a >> 1, b >> 1, Feedback(a), Feedback(b));
  }

  lemma {:induction false} ShiftByLinear(a: bv32, b: bv32, n: nat)
    ensures ShiftBy(Xor(a, b), n) == Xor(ShiftBy(a, n), ShiftBy(b, n))
  {
    hide Shift, Xor;
    if n > 0 {
      ShiftByLinear(a, b, n - 1);
      ShiftLinear(ShiftBy(a, n - 1), ShiftBy(b, n - 1));
    }
  }

  lemma {:induction false} ShiftByAdd(c: bv32, m: nat, n: nat)
    ensures ShiftBy(ShiftBy(c, m), n) == ShiftBy(c, m + n)
  {
    hide Shift;
    if n > 0 {
      ShiftByAdd(c, m, n - 1);
    }
  }

  // ----- A window of at most four bytes enters the register as one word -----

  function LittleEndian(bytes: seq<Byte>): bv32
    requires |bytes| <= 4
  {
    if bytes == [] then 0 else Xor(bytes[0] as bv32, LiftBits(LittleEndian(bytes[1..]), 8))
  }

  function Up(w: bv32): bv32 {
    w << 1
  }

  function Widen(mask: bv32): bv32 {
    (mask >> 1) | 0x8000_0000
  }

  predicate Clear(w: bv32, mask: bv32) {
    w & mask == 0
  }

  /** The `n` topmost bits. */
  function TopBits(n: nat): bv32 {
    if n == 0 then 0 else Widen(TopBits(n - 1))
  }

  function LiftBits(w: bv32, n: nat): bv32
    decreases n
  {
    if n == 0 then w else LiftBits(Up(w), n - 1)
  }

  lemma ShiftOutZero(w: bv32, mask: bv32)
    requires Clear(w, Widen(mask))
    ensures Shift(Up(w)) == w && Clear(Up(w), mask)
  {
  }

  /** Shifting a word whose low `n` bits are clear only moves it down: no feedback occurs. */
  lemma {:induction false} ShiftOutZeros(w: bv32, n: nat)
    requires Clear(w, TopBits(n))
    ensures ShiftBy(LiftBits(w, n), n) == w
    decreases n
  {
    hide Shift, Up, Clear, Widen;
    if n > 0 {
      ShiftOutZero(w, TopBits(n - 1));
      ShiftOutZeros(Up(w), n - 1);
    }
  }

  lemma TopByte()
    ensures TopBits(8) == 0xff00_0000
  {
    assert TopBits(2) == 0xc000_0000;
    assert TopBits(4) == 0xf000_0000;
    assert TopBits(6) == 0xfc00_0000;
  }

  lemma LiftByte(w: bv32)
    ensures LiftBits(w, 8) == w << 8
  {
    assert LiftBits(w, 8) == LiftBits(w << 2, 6);
    assert LiftBits(w << 2, 6) == LiftBits(w << 4, 4);
    assert LiftBits(w << 4, 4) == LiftBits(w << 6, 2);
  }

  lemma {:induction false} LittleEndianBound(bytes: seq<Byte>)
    requires |bytes| <= 3
    ensures LittleEndian(bytes) & 0xff00_0000 == 0
    ensures |bytes| <= 2 ==> LittleEndian(bytes) & 0xffff_0000 == 0
    ensures |bytes| <= 1 ==> LittleEndian(bytes) & 0xffff_ff00 == 0
  {
    if bytes != [] {
      LittleEndianBound(bytes[1..]);
      LiftByte(LittleEndian(bytes[1..]));
    }
  }

  lemma SplitLowByte(b: Byte, w: bv32)
    requires w & 0xff00_0000 == 0
    ensures (Xor(b as bv32, LiftBits(w, 8)) & 0xff) as Byte == b
    ensures Xor(b as bv32, LiftBits(w, 8)) >> 8 == w
  {
    LiftByte(w);
  }

  lemma SameWordSameParts(a: Byte, p: bv32, b: Byte, q: bv32)
    requires p & 0xff00_0000 == 0 && q & 0xff00_0000 == 0
    requires Xor(a as bv32, LiftBits(p, 8)) == Xor(b as bv32, LiftBits(q, 8))
    ensures a == b && p == q
  {
    hide Xor, LiftBits;
    SplitLowByte(a, p);
    SplitLowByte(b, q);
  }

  lemma {:induction false} LittleEndianInjective(x: seq<Byte>, y: seq<Byte>)
    requires |x| == |y| <= 4
    requires LittleEndian(x) == LittleEndian(y)
    ensures x == y
    decreases |x|
  {
    hide Xor, LiftBits;
    if x != [] {
      var p, q := LittleEndian(x[1..]), LittleEndian(y[1..]);
      LittleEndianBound(x[1..]);
      LittleEndianBound(y[1..]);
      SameWordSameParts(x[0], p, y[0], q);
      LittleEndianInjective(x[1..], y[1..]);
      assert x == [x[0]] + x[1..] && y == [y[0]] + y[1..];
    }
  }

  lemma XorAssociates(a: bv32, b: bv32, c: bv32)
    ensures Xor(Xor(a, b), c) == Xor(a, Xor(b, c))
  {
  }

  lemma XorCommutes(a: bv32, b: bv32)
    ensures Xor(a, b) == Xor(b, a)
  {
  }

  lemma XorZero(a: bv32)
    ensures Xor(a, 0) == a
  {
  }

  lemma {:induction false} AbsorbConcat(c: bv32, x: seq<Byte>, y: seq<Byte>)
    ensures Absorb(c, x + y) == Absorb(Absorb(c, x), y)
  {
    hide AbsorbByte;
    if y == [] {
      assert x + y == x;
    } else {
      var z := y[..|y| - 1];
      assert (x + y)[..|x + y| - 1] == x + z;
      AbsorbConcat(c, x, z);
    }
  }

  lemma {:induction false} AbsorbOne(c: bv32, b: Byte)
    ensures Absorb(c, [b]) == AbsorbByte(c, b)
  {
    hide AbsorbByte;
    assert [b][..0] == [];
    assert Absorb(c, [b][..0]) == c;
  }

  lemma {:induction false} AbsorbWindow(c: bv32, x: seq<Byte>)
    requires |x| <= 4
    ensures Absorb(c, x) == ShiftBy(Xor(c, LittleEndian(x)), 8 * |x|)
    decreases |x|
  {
    hide Xor, LiftBits, Absorb, ShiftBy;
    if x == [] {
      XorZero(c);
      EmptyWork(c);
    } else {
      var b, rest := x[0], x[1..];
      var w := LittleEndian(rest);
      var lifted := LiftBits(w, 8);
      var mixed := Xor(c, b as bv32);
      assert x == [b] + rest;
      AbsorbConcat(c, [b], rest);
      AbsorbOne(c, b);
      AbsorbWindow(ShiftBy(mixed, 8), rest);
      LittleEndianBound(rest);
      TopByte();
      ShiftOutZeros(w, 8);
      ShiftByLinear(mixed, lifted, 8);
      XorAssociates(c, b as bv32, lifted);
      ShiftByAdd(Xor(mixed, lifted), 8, 8 * |rest|);
    }
  }

  lemma EmptyWork(c: bv32)
    ensures Absorb(c, []) == c == ShiftBy(c, 0)
  {
  }

  lemma {:induction false} AbsorbInjective(a: bv32, b: bv32, data: seq<Byte>)
    requires Absorb(a, data) == Absorb(b, data)
    ensures a == b
  {
    hide ShiftBy, Xor;
    if data != [] {
      var init, last := data[..|data| - 1], data[|data| - 1];
      var p, q := Absorb(a, init), Absorb(b, init);
      ShiftByInjective(Xor(p, last as bv32), Xor(q, last as bv32), 8);
      XorCancel(p, q, last as bv32);
      AbsorbInjective(a, b, init);
    }
  }

  lemma ComplementInjective(a: bv32, b: bv32)
    requires Complement(a) == Complement(b)
    ensures a == b
  {
  }

  /** Windows of equal length drive the same register to different values. */
  lemma WindowDetected(c: bv32, x: seq<Byte>, y: seq<Byte>)
    requires |x| == |y| <= 4
    requires x != y
    ensures Absorb(c, x) != Absorb(c, y)
  {
    hide Absorb, ShiftBy, LittleEndian, Xor;
    AbsorbWindow(c, x);
    AbsorbWindow(c, y);
    if Absorb(c, x) == Absorb(c, y) {
      ShiftByInjective(Xor(c, LittleEndian(x)), Xor(c, LittleEndian(y)), 8 * |x|);
      XorCommutes(c, LittleEndian(x));
      XorCommutes(c, LittleEndian(y));
      XorCancel(LittleEndian(x), LittleEndian(y), c);
      LittleEndianInjective(x, y);
    }
  }

  /**
   Two payloads of equal length that differ only inside a window of at most four adjacent
   bytes never share a checksum.
   */
  lemma BurstDetected(prefix: seq<Byte>, x: seq<Byte>, y: seq<Byte>, suffix: seq<Byte>)
    requires |x| == |y| <= 4
    requires x != y
    ensures Checksum(prefix + x + suffix) != Checksum(prefix + y + suffix)
  {
    hide Absorb, Complement;
    var start: bv32 := 0xffff_ffff;
    var c := Absorb(start, prefix);
    AbsorbConcat(start, prefix + x, suffix);
    AbsorbConcat(start, prefix + y, suffix);
    AbsorbConcat(start, prefix, x);
    AbsorbConcat(start, prefix, y);
    WindowDetected(c, x, y);
    if Checksum(prefix + x + suffix) == Checksum(prefix + y + suffix) {
      ComplementInjective(Absorb(start, prefix + x + suffix), Absorb(start, prefix + y + suffix));
      AbsorbInjective(Absorb(c, x), Absorb(c, y), suffix);
    }
  }

  // ----- A checksum worked out -----

  lemma FirstOfTwo()
    ensures AbsorbByte(0xffff_ffff, 0x61) == 0x1748_41bc
  {
    var c: bv32 := 0xffff_ff9e;
    assert Xor(0xffff_ffff, (0x61 as Byte) as bv32) == c;
    assert ShiftBy(c, 2) == 0xd247_7cc7;
    assert ShiftBy(c, 4) == 0xaff5_1d81;
    assert ShiftBy(c, 6) == 0x5d21_06f0;
    assert ShiftBy(c, 8) == 0x1748_41bc;
  }

  lemma SecondOfTwo()
    ensures AbsorbByte(0x1748_41bc, 0x62) == 0x617c_b792
  {
    var c: bv32 := 0x1748_41de;
    assert Xor(0x1748_41bc, (0x62 as Byte) as bv32) == c;
    assert ShiftBy(c, 2) == 0xe86a_9357;
    assert ShiftBy(c, 4) == 0xa17e_6665;
    assert ShiftBy(c, 6) == 0x5e83_d809;
    assert ShiftBy(c, 8) == 0x617c_b792;
  }

  /** The checksum of the two letters "ab" is the one that every CRC-32 of this kind gives. */
  lemma ChecksumOfTwo()
    ensures Checksum([0x61, 0x62]) == 0x9e83_486d
  {
    hide AbsorbByte;
    FirstOfTwo();
    SecondOfTwo();
    var text: seq<Byte> := [0x61, 0x62];
    assert text[..0] == [] && text[..1][..0] == [] && text[..1][0] == 0x61;
    assert Absorb(0xffff_ffff, text[..1][..0]) == 0xffff_ffff;
    assert Absorb(0xffff_ffff, text[..1]) == 0x1748_41bc;
    assert Absorb(0xffff_ffff, text) == 0x617c_b792;
  }
}
