/** The UTF-8 and UTF-16 forms of text (a `char` is a Unicode scalar value). */
module Unicode {
  type Unit = n: nat | n < 0x10000

  function Code(c: char): (n: nat)
    ensures n < 0xD800 || 0xE000 <= n < 0x11_0000
  {
    c as nat
  }

  // ----- UTF-16 -----

  function Units(c: char): (u: seq<Unit>)
    ensures 1 <= |u| <= 2
  {
    var n := Code(c);
    if n < 0x10000 then [n] else [0xD800 + (n - 0x10000) / 0x400, 0xDC00 + (n - 0x10000) % 0x400]
  }

  function Utf16(s: string): seq<Unit> {
    if s == [] then [] else Units(s[0]) + Utf16(s[1..])
  }

  lemma UnitsDetermine(c: char, d: char, s: seq<Unit>, t: seq<Unit>)
    requires Units(c) + s == Units(d) + t
    ensures c == d && s == t
  {
    var line := Units(c) + s;
    assert line[0] == Units(c)[0] && line[0] == Units(d)[0];
    assert |Units(c)| == |Units(d)|;
    if |Units(c)| == 2 {
      assert line[1] == Units(c)[1] && line[1] == Units(d)[1];
    }
    assert Code(c) == Code(d);
    assert s == line[|Units(c)|..] && t == line[|Units(d)|..];
  }

  lemma {:induction false} Utf16Determines(a: string, b: string)
    requires Utf16(a) == Utf16(b)
    ensures a == b
  {
    if a != [] && b != [] {
      UnitsDetermine(a[0], b[0], Utf16(a[1..]), Utf16(b[1..]));
      Utf16Determines(a[1..], b[1..]);
    }
  }

  /** Lexicographic order of code-unit sequences. */
  predicate UnitsBefore(a: seq<Unit>, b: seq<Unit>) {
    b != [] && (a == [] || a[0] < b[0] || (a[0] == b[0] && UnitsBefore(a[1..], b[1..])))
  }

  lemma {:induction false} UnitsOrdered(a: seq<Unit>, b: seq<Unit>)
    ensures UnitsBefore(a, b) || a == b || UnitsBefore(b, a)
    ensures !(UnitsBefore(a, b) && UnitsBefore(b, a)) && !UnitsBefore(a, a)
  {
    if a != [] {
      UnitsOrdered(a[1..], a[1..]);
      if b != [] {
        UnitsOrdered(a[1..], b[1..]);
        assert a == [a[0]] + a[1..] && b == [b[0]] + b[1..];
      }
    }
  }

  lemma {:induction false} UnitsTransitive(a: seq<Unit>, b: seq<Unit>, c: seq<Unit>)
    requires UnitsBefore(a, b) && UnitsBefore(b, c)
    ensures UnitsBefore(a, c)
  {
    if a != [] && a[0] == b[0] && b[0] == c[0] {
      UnitsTransitive(a[1..], b[1..], c[1..]);
    }
  }

  /** The member order of section 3.2.3 of RFC 8785. */
  predicate KeyBefore(a: string, b: string) {
    UnitsBefore(Utf16(a), Utf16(b))
  }

  /** It is a strict total order on strings. */
  lemma KeysOrdered(a: string, b: string)
    ensures KeyBefore(a, b) || a == b || KeyBefore(b, a)
    ensures !(KeyBefore(a, b) && KeyBefore(b, a)) && !KeyBefore(a, a)
  {
    UnitsOrdered(Utf16(a), Utf16(b));
    UnitsOrdered(Utf16(a), Utf16(a));
    if Utf16(a) == Utf16(b) {
      Utf16Determines(a, b);
    }
  }

  lemma KeysTransitive(a: string, b: string, c: string)
    requires KeyBefore(a, b) && KeyBefore(b, c)
    ensures KeyBefore(a, c)
  {
    UnitsTransitive(Utf16(a), Utf16(b), Utf16(c));
  }

  /** It is not the order of code points: a character above U+FFFF comes before U+E000 to U+FFFF. */
  lemma NotCodePointOrder(high: char, low: char)
    requires Code(high) >= 0x10000 && 0xE000 <= Code(low) < 0x10000
    ensures KeyBefore([high], [low]) && Code(low) < Code(high)
  {
    assert [high][1..] == [] && [low][1..] == [];
    assert Utf16([high]) == Units(high) && Utf16([low]) == Units(low);
  }

  // ----- UTF-8 -----

  type Octet = n: nat | n < 0x100

  function Octets(c: char): (b: seq<Octet>)
    ensures 1 <= |b| <= 4
  {
    var n := Code(c);
    if n < 0x80 then [n]
    else if n < 0x800 then [0xC0 + n / 0x40, 0x80 + n % 0x40]
    else if n < 0x10000 then [0xE0 + n / 0x1000, 0x80 + n / 0x40 % 0x40, 0x80 + n % 0x40]
    else [0xF0 + n / 0x40000, 0x80 + n / 0x1000 % 0x40, 0x80 + n / 0x40 % 0x40, 0x80 + n % 0x40]
  }

  function Utf8(s: string): seq<Octet> {
    if s == [] then [] else Octets(s[0]) + Utf8(s[1..])
  }

  /** The code the octets of one character spell. */
  function Spelled(b: seq<Octet>): int
    requires 1 <= |b| <= 4
  {
    var first: int := b[0];
    if |b| == 1 then first
    else if |b| == 2 then Continued(first - 0xC0, b[1])
    else if |b| == 3 then Continued(Continued(first - 0xE0, b[1]), b[2])
    else Continued(Continued(Continued(first - 0xF0, b[1]), b[2]), b[3])
  }

  function Continued(high: int, next: int): int {
    0x40 * high + (next - 0x80)
  }

  lemma OctetsSpell(c: char)
    ensures Spelled(Octets(c)) == Code(c)
  {
    var n := Code(c);
    assert n / 0x1000 == n / 0x40 / 0x40 && n / 0x40000 == n / 0x1000 / 0x40;
  }

  lemma OctetsDetermine(c: char, d: char, s: seq<Octet>, t: seq<Octet>)
    requires Octets(c) + s == Octets(d) + t
    ensures c == d && s == t
  {
    var line := Octets(c) + s;
    assert line[0] == Octets(c)[0] && line[0] == Octets(d)[0];
    assert |Octets(c)| == |Octets(d)|;
    assert Octets(c) == line[..|Octets(c)|] && Octets(d) == line[..|Octets(d)|];
    OctetsSpell(c);
    OctetsSpell(d);
    assert s == line[|Octets(c)|..] && t == line[|Octets(d)|..];
  }

  lemma {:induction false} Utf8Appends(a: string, b: string)
    ensures Utf8(a + b) == Utf8(a) + Utf8(b)
  {
    hide Octets;
    if a == [] {
      assert a + b == b;
    } else {
      Utf8Appends(a[1..], b);
      assert (a + b)[1..] == a[1..] + b;
      assert Utf8(a + b) == Octets(a[0]) + (Utf8(a[1..]) + Utf8(b));
    }
  }

  lemma {:induction false} Utf8Determines(a: string, b: string)
    requires Utf8(a) == Utf8(b)
    ensures a == b
  {
    if a != [] && b != [] {
      OctetsDetermine(a[0], b[0], Utf8(a[1..]), Utf8(b[1..]));
      Utf8Determines(a[1..], b[1..]);
    }
  }

  // ----- The two forms, as the standard has them -----

  /** One unit for the basic plane; above it a high and a low surrogate that spell the code. */
  lemma UnitsExactly(c: char)
    ensures var u, n := Units(c), Code(c);
      if n < 0x10000 then u == [n]
      else |u| == 2 && 0xD800 <= u[0] <= 0xDBFF && 0xDC00 <= u[1] <= 0xDFFF
           && var high: int, low: int := u[0], u[1];
           0x10000 + (high - 0xD800) * 0x400 + (low - 0xDC00) == n
  {
  }

  /** As few octets as the code needs, the first telling their number and the others continuing it. */
  lemma OctetsExactly(c: char)
    ensures var b, n := Octets(c), Code(c);
      && |b| == (if n < 0x80 then 1 else if n < 0x800 then 2 else if n < 0x10000 then 3 else 4)
      && (|b| == 1 ==> b[0] < 0x80) && (|b| == 2 ==> 0xC2 <= b[0] <= 0xDF)
      && (|b| == 3 ==> 0xE0 <= b[0] <= 0xEF) && (|b| == 4 ==> 0xF0 <= b[0] <= 0xF4)
      && (forall i :: 0 < i < |b| ==> 0x80 <= b[i] <= 0xBF)
      && Spelled(b) == n
  {
    OctetsSpell(c);
  }
}
