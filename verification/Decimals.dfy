/** Decimal digits: printing naturals, reading them back, powers of ten. */
module Decimals {

  predicate IsDigit(c: char) {
    '0' <= c <= '9'
  }

  function DigitChar(d: nat): (c: char)
    requires d < 10
    ensures IsDigit(c) && DigitOf(c) == d
  {
    d as char + '0'
  }

  function DigitOf(c: char): (d: nat)
    requires IsDigit(c)
    ensures d < 10
  {
    (c - '0') as int
  }

  predicate AllDigits(s: string) {
    forall i :: 0 <= i < |s| ==> IsDigit(s[i])
  }

  function Decimal(n: nat): (s: string)
    ensures s != [] && AllDigits(s)
    ensures ValueOf(s) == n
  {
    if n < 10 then [DigitChar(n)] else Decimal(n / 10) + [DigitChar(n % 10)]
  }

  function ValueOf(s: string): nat
    requires AllDigits(s)
  {
    if s == [] then 0 else 10 * ValueOf(s[..|s| - 1]) + DigitOf(s[|s| - 1])
  }

  function Integer(n: int): string {
    if n < 0 then "-" + Decimal(-n) else Decimal(n)
  }

  /** What may follow a number without being taken for part of it. */
  predicate NoDigit(s: string) {
    s == [] || !IsDigit(s[0])
  }

  /** The length of the digits a text starts with. */
  function DigitCount(s: string): (n: nat)
    ensures n <= |s| && AllDigits(s[..n])
  {
    if NoDigit(s) then 0 else 1 + DigitCount(s[1..])
  }

  lemma {:induction false} CountStopsAtEnd(a: string, s: string)
    requires AllDigits(a) && NoDigit(s)
    ensures DigitCount(a + s) == |a|
  {
    if a == [] {
      assert a + s == s;
    } else {
      CountStopsAtEnd(a[1..], s);
      assert (a + s)[1..] == a[1..] + s;
    }
  }

  lemma DigitRunsEqual(a: string, b: string, s: string, t: string)
    requires AllDigits(a) && AllDigits(b) && NoDigit(s) && NoDigit(t)
    requires a + s == b + t
    ensures a == b && s == t
  {
    CountStopsAtEnd(a, s);
    CountStopsAtEnd(b, t);
    assert a == (a + s)[..|a|] && b == (b + t)[..|b|];
    assert s == (a + s)[|a|..] && t == (b + t)[|b|..];
  }

  /** A printed integer and what follows it can be told apart. */
  lemma IntegerDetermines(m: int, n: int, s: string, t: string)
    requires NoDigit(s) && NoDigit(t) && Integer(m) + s == Integer(n) + t
    ensures m == n && s == t
  {
    hide Decimal, ValueOf, DigitCount;
    var a, b := Magnitude(m), Magnitude(n);
    SignShows(m, s);
    SignShows(n, t);
    DigitRunsEqual(a, b, s, t);
    assert ValueOf(a) == ValueOf(b);
  }

  function Magnitude(n: int): (s: string)
    ensures s != [] && AllDigits(s) && ValueOf(s) == if n < 0 then -n else n
  {
    Decimal(if n < 0 then -n else n)
  }

  lemma SignShows(n: int, s: string)
    ensures (Integer(n) + s)[0] == '-' <==> n < 0
    ensures Magnitude(n) + s == if n < 0 then (Integer(n) + s)[1..] else Integer(n) + s
  {
    hide Decimal, ValueOf;
    var digits := Magnitude(n);
    assert IsDigit(digits[0]);
    if n < 0 {
      assert Integer(n) + s == "-" + (digits + s);
    }
  }

  function Pow10(e: nat): (p: nat)
    ensures p >= 1
  {
    if e == 0 then 1 else 10 * Pow10(e - 1)
  }

  lemma {:induction false} PowAdds(a: nat, b: nat)
    ensures Pow10(a + b) == Pow10(a) * Pow10(b)
  {
    if a > 0 {
      PowAdds(a - 1, b);
    }
  }

  function Zeros(n: nat): (s: string)
    ensures |s| == n && AllDigits(s)
  {
    if n == 0 then "" else Zeros(n - 1) + "0"
  }

  lemma {:induction false} ValueAppends(a: string, b: string)
    requires AllDigits(a) && AllDigits(b)
    ensures AllDigits(a + b) && ValueOf(a + b) == ValueOf(a) * Pow10(|b|) + ValueOf(b)
  {
    if b == [] {
      assert a + b == a;
    } else {
      var init, d := b[..|b| - 1], b[|b| - 1];
      ValueAppends(a, init);
      ValueSnoc(init, d);
      ValueSnoc(a + init, d);
      assert init + [d] == b && a + init + [d] == a + b;
      Shifted(ValueOf(a), |init|);
    }
  }

  lemma ValueSnoc(s: string, c: char)
    requires AllDigits(s) && IsDigit(c)
    ensures AllDigits(s + [c]) && ValueOf(s + [c]) == 10 * ValueOf(s) + DigitOf(c)
  {
    assert (s + [c])[..|s|] == s;
  }

  lemma Shifted(n: nat, e: nat)
    ensures 10 * (n * Pow10(e)) == n * Pow10(e + 1)
  {
  }

  lemma {:induction false} ValueOfZeros(n: nat)
    ensures ValueOf(Zeros(n)) == 0
  {
    if n > 0 {
      ValueOfZeros(n - 1);
      assert Zeros(n)[..n - 1] == Zeros(n - 1);
    }
  }

  lemma {:induction false} ValueIsBounded(s: string)
    requires AllDigits(s)
    ensures ValueOf(s) < Pow10(|s|)
  {
    if s != [] {
      ValueIsBounded(s[..|s| - 1]);
    }
  }

  /** Digit strings of one length and one value are equal. */
  lemma {:induction false} ValueDetermines(a: string, b: string)
    requires AllDigits(a) && AllDigits(b) && |a| == |b| && ValueOf(a) == ValueOf(b)
    ensures a == b
  {
    if a != [] {
      var n := |a| - 1;
      ValueDetermines(a[..n], b[..n]);
      assert a == a[..n] + [a[n]] && b == b[..n] + [b[n]];
      assert a[n] == DigitChar(DigitOf(a[n])) && b[n] == DigitChar(DigitOf(b[n]));
    }
  }
}
