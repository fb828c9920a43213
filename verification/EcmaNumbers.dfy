/**
 ECMAScript number layout (section 3.2.2.3 of RFC 8785): the text chosen for a sign, a digit
 string and an exponent, and what a reader of decimal text makes of it.
 */
module EcmaNumbers {
  import opened Decimals

  /** Shortest round-trip digits of a non-zero double: no leading and no trailing zero. */
  predicate Normalized(digits: string) {
    digits != [] && AllDigits(digits) && digits[0] != '0' && digits[|digits| - 1] != '0'
  }

  function Sign(negative: bool): string {
    if negative then "-" else ""
  }

  /** The four layouts, for the value digits times 10 to the power n minus the number of digits. */
  function Unsigned(digits: string, n: int): string
    requires Normalized(digits)
  {
    var k := |digits|;
    if k <= n <= 21 then digits + Zeros(n - k)
    else if 0 < n <= 21 then digits[..n] + "." + digits[n..]
    else if -6 < n <= 0 then "0." + Zeros(-n) + digits
    else Scientific(digits, n)
  }

  function Scientific(digits: string, n: int): string
    requires Normalized(digits)
  {
    digits[..1] + Fraction(digits[1..]) + ("e" + Exponent(n - 1))
  }

  function Fraction(rest: string): string {
    if rest == "" then "" else "." + rest
  }

  function Exponent(e: int): string {
    if e >= 0 then "+" + Decimal(e) else "-" + Decimal(-e)
  }

  function NumberText(negative: bool, digits: string, n: int): string
    requires Normalized(digits)
  {
    Sign(negative) + Unsigned(digits, n)
  }

  method WriteZeros(before: string, count: nat) returns (out: string)
    ensures out == before + Zeros(count)
  {
    out := before;
    for i := 0 to count
      invariant out == before + Zeros(i)
    {
      assert before + Zeros(i) + "0" == before + (Zeros(i) + "0");
      out := out + "0";
    }
  }

  lemma Regroup(a: string, b: string, c: string)
    ensures a + b + c == a + (b + c)
  {
  }

  method WriteSplit(before: string, head: string, tail: string) returns (out: string)
    ensures out == before + (head + "." + tail)
  {
    Regroup(before, head, ".");
    Regroup(before, head + ".", tail);
    out := before + head;
    out := out + ".";
    out := out + tail;
  }

  method WriteSmall(before: string, digits: string, count: nat) returns (out: string)
    ensures out == before + ("0." + Zeros(count) + digits)
  {
    hide Zeros;
    Regroup(before, "0.", Zeros(count));
    Regroup(before, "0." + Zeros(count), digits);
    out := WriteZeros(before + "0.", count);
    out := out + digits;
  }

  method WriteScientific(before: string, digits: string, n: int) returns (out: string)
    requires Normalized(digits)
    ensures out == before + Scientific(digits, n)
  {
    hide Exponent;
    var first, rest := digits[..1], digits[1..];
    out := before + first;
    Regroup(before, first, Fraction(rest));
    if rest != "" {
      Regroup(before + first, ".", rest);
      out := out + ".";
      out := out + rest;
    }
    assert out == before + (first + Fraction(rest));
    var e := Exponent(n - 1);
    Regroup(before, first + Fraction(rest), "e" + e);
    Regroup(out, "e", e);
    out := out + "e";
    out := out + e;
  }

  /** The printer, with its zero-filling loops. */
  method WriteNumber(negative: bool, digits: string, n: int) returns (out: string)
    requires Normalized(digits)
    ensures out == NumberText(negative, digits, n)
  {
    hide Zeros, Scientific;
    out := if negative then "-" else "";
    if |digits| <= n <= 21 {
      Regroup(out, digits, Zeros(n - |digits|));
      out := WriteZeros(out + digits, n - |digits|);
    } else if 0 < n <= 21 {
      out := WriteSplit(out, digits[..n], digits[n..]);
    } else if -6 < n <= 0 {
      out := WriteSmall(out, digits, -n);
    } else {
      out := WriteScientific(out, digits, n);
    }
  }

  // ----- Reading decimal text -----

  /** A decimal: plus or minus the significand times 10 to the power of the exponent. */
  datatype Reading = Reading(negative: bool, significand: nat, exponent: int)

  function AfterDigits(s: string): string {
    s[DigitCount(s)..]
  }

  /** The digits after a decimal point, if there is one. */
  function FractionDigits(s: string): (f: string)
    ensures AllDigits(f)
  {
    if s == [] || s[0] != '.' then "" else s[1..][..DigitCount(s[1..])]
  }

  function AfterFraction(s: string): string {
    if s == [] || s[0] != '.' then s else AfterDigits(s[1..])
  }

  function ExponentOf(s: string): int {
    if |s| < 2 || s[0] != 'e' then 0
    else
      var digits := s[2..][..DigitCount(s[2..])];
      var e: int := ValueOf(digits);
      if s[1] == '-' then -e else e
  }

  function ReadUnsigned(s: string): (nat, int) {
    var whole := s[..DigitCount(s)];
    var fraction := FractionDigits(AfterDigits(s));
    (ValueOf(whole + fraction), ExponentOf(AfterFraction(AfterDigits(s))) - |fraction|)
  }

  function Read(s: string): Reading {
    var negative := s != [] && s[0] == '-';
    var (significand, exponent) := ReadUnsigned(if negative then s[1..] else s);
    Reading(negative, significand, exponent)
  }

  /** Same number: the significands agree once written over the smaller exponent. */
  predicate SameNumber(a: (nat, int), b: (nat, int)) {
    if a.1 <= b.1 then a.0 == b.0 * Pow10(b.1 - a.1) else b.0 == a.0 * Pow10(a.1 - b.1)
  }

  // ----- Each layout reads back -----

  /** The parts a text of digits and a rest falls into. */
  lemma SplitsAt(digits: string, rest: string)
    requires AllDigits(digits) && NoDigit(rest)
    ensures DigitCount(digits + rest) == |digits|
    ensures (digits + rest)[..|digits|] == digits && AfterDigits(digits + rest) == rest
  {
    hide DigitCount;
    CountStopsAtEnd(digits, rest);
  }

  lemma FractionSplits(fraction: string, tail: string)
    requires AllDigits(fraction) && NoDigit(tail)
    ensures FractionDigits("." + (fraction + tail)) == fraction && AfterFraction("." + (fraction + tail)) == tail
  {
    hide DigitCount;
    assert ("." + (fraction + tail))[1..] == fraction + tail;
    SplitsAt(fraction, tail);
  }

  /** Reading a whole part, a point and a fraction, with or without an exponent behind them. */
  lemma ReadsParts(whole: string, fraction: string, tail: string)
    requires AllDigits(whole) && AllDigits(fraction) && NoDigit(tail)
    ensures ReadUnsigned(whole + "." + fraction + tail) == (ValueOf(whole + fraction), ExponentOf(tail) - |fraction|)
  {
    hide ValueOf, ExponentOf, DigitCount, AfterDigits, FractionDigits, AfterFraction, AllDigits;
    var rest := "." + (fraction + tail);
    assert whole + rest == whole + "." + fraction + tail;
    SplitsAt(whole, rest);
    FractionSplits(fraction, tail);
  }

  lemma ReadsWhole(whole: string, tail: string)
    requires AllDigits(whole) && NoDigit(tail) && (tail == [] || tail[0] == 'e')
    ensures ReadUnsigned(whole + tail) == (ValueOf(whole), ExponentOf(tail))
  {
    hide ValueOf, ExponentOf, DigitCount, AfterDigits, AllDigits;
    SplitsAt(whole, tail);
    assert whole + "" == whole;
  }

  lemma ReadsExponent(e: int)
    ensures ExponentOf("e" + Exponent(e)) == e
  {
    hide Decimal, ValueOf, DigitCount;
    var digits := Decimal(if e >= 0 then e else -e);
    CountStopsAtEnd(digits, "");
    assert digits + "" == digits;
    assert ("e" + Exponent(e))[2..] == digits;
    assert digits[..|digits|] == digits;
  }

  lemma LargeReads(digits: string, n: int)
    requires Normalized(digits) && |digits| <= n
    ensures SameNumber(ReadUnsigned(digits + Zeros(n - |digits|)), (ValueOf(digits), n - |digits|))
  {
    hide ReadUnsigned, ValueOf, Zeros;
    var zeros := Zeros(n - |digits|);
    ReadsWhole(digits + zeros, "");
    assert digits + zeros + "" == digits + zeros;
    ValueAppends(digits, zeros);
    ValueOfZeros(n - |digits|);
  }

  lemma SplitReads(digits: string, n: int)
    requires Normalized(digits) && 0 < n < |digits|
    ensures ReadUnsigned(digits[..n] + "." + digits[n..]) == (ValueOf(digits), n - |digits|)
  {
    hide ReadUnsigned, ValueOf;
    ReadsParts(digits[..n], digits[n..], "");
    assert digits[..n] + "." + digits[n..] + "" == digits[..n] + "." + digits[n..];
    assert digits[..n] + digits[n..] == digits;
  }

  lemma SmallReads(digits: string, n: int)
    requires Normalized(digits) && n <= 0
    ensures ReadUnsigned("0." + Zeros(-n) + digits) == (ValueOf(digits), n - |digits|)
  {
    hide ReadUnsigned, Zeros, ValueOf, ExponentOf;
    var fraction := Zeros(-n) + digits;
    ReadsParts("0", fraction, "");
    Regroup("0.", Zeros(-n), digits);
    assert "0" + "." + fraction + "" == "0." + fraction;
    LeadingZeros(-n, digits);
    LeadingZeros(1, fraction);
    assert Zeros(1) == "0" by {
      OneZero();
    }
    NoExponent();
  }

  lemma OneZero()
    ensures Zeros(1) == "0"
  {
  }

  lemma NoExponent()
    ensures ExponentOf("") == 0
  {
  }

  lemma LeadingZeros(count: nat, digits: string)
    requires AllDigits(digits)
    ensures AllDigits(Zeros(count) + digits) && ValueOf(Zeros(count) + digits) == ValueOf(digits)
  {
    hide ValueOf, Zeros, Pow10;
    ValueAppends(Zeros(count), digits);
    ValueOfZeros(count);
  }

  lemma ScientificParts(digits: string, n: int)
    requires Normalized(digits)
    ensures var tail := "e" + Exponent(n - 1);
      && Scientific(digits, n) == (if |digits| > 1 then digits[..1] + "." + digits[1..] + tail else digits + tail)
      && NoDigit(tail) && tail[0] == 'e'
  {
    hide Exponent;
    if |digits| > 1 {
      Regroup(digits[..1], ".", digits[1..]);
    } else {
      assert digits[..1] == digits && digits + "" == digits;
    }
  }

  lemma ScientificReads(digits: string, n: int)
    requires Normalized(digits)
    ensures ReadUnsigned(Scientific(digits, n)) == (ValueOf(digits), n - |digits|)
  {
    hide ReadUnsigned, ValueOf, ExponentOf, Exponent, Scientific;
    var tail := "e" + Exponent(n - 1);
    ReadsExponent(n - 1);
    ScientificParts(digits, n);
    if |digits| > 1 {
      ReadsParts(digits[..1], digits[1..], tail);
      assert digits[..1] + digits[1..] == digits;
    } else {
      ReadsWhole(digits, tail);
    }
  }

  /** Whatever layout is chosen, the text denotes exactly digits times 10 to the power n minus their number. */
  lemma LayoutDenotes(digits: string, n: int)
    requires Normalized(digits)
    ensures SameNumber(ReadUnsigned(Unsigned(digits, n)), (ValueOf(digits), n - |digits|))
  {
    hide ReadUnsigned, ValueOf, Zeros, Scientific;
    if |digits| <= n <= 21 {
      LargeReads(digits, n);
    } else if 0 < n <= 21 {
      SplitReads(digits, n);
    } else if -6 < n <= 0 {
      SmallReads(digits, n);
    } else {
      ScientificReads(digits, n);
    }
    assert Pow10(0) == 1;
  }

  lemma UnsignedStartsWithDigit(digits: string, n: int)
    requires Normalized(digits)
    ensures Unsigned(digits, n) != [] && IsDigit(Unsigned(digits, n)[0])
  {
    hide Zeros, Exponent;
  }

  lemma SignReads(negative: bool, digits: string, n: int)
    requires Normalized(digits)
    ensures var r := Read(NumberText(negative, digits, n));
      r.negative == negative && (r.significand, r.exponent) == ReadUnsigned(Unsigned(digits, n))
  {
    hide ReadUnsigned, Unsigned;
    UnsignedStartsWithDigit(digits, n);
    var text := NumberText(negative, digits, n);
    assert negative ==> text[1..] == Unsigned(digits, n);
    assert !negative ==> text == Unsigned(digits, n);
  }

  /** The whole text denotes sign, digits and power of ten. */
  lemma NumberTextDenotes(negative: bool, digits: string, n: int)
    requires Normalized(digits)
    ensures var r := Read(NumberText(negative, digits, n));
      && r.negative == negative
      && SameNumber((r.significand, r.exponent), (ValueOf(digits), n - |digits|))
  {
    hide ReadUnsigned, Unsigned, Read, NumberText, ValueOf, SameNumber;
    SignReads(negative, digits, n);
    LayoutDenotes(digits, n);
  }

  // ----- Distinct numbers never print alike -----

  lemma LastDigitDecides(digits: string)
    requires Normalized(digits)
    ensures ValueOf(digits) % 10 != 0 && ValueOf(digits) > 0
  {
    var d := DigitOf(digits[|digits| - 1]);
    assert ValueOf(digits) == 10 * ValueOf(digits[..|digits| - 1]) + d;
    assert digits[|digits| - 1] == DigitChar(d);
  }

  lemma FirstDigitDecides(digits: string)
    requires Normalized(digits)
    ensures Pow10(|digits| - 1) <= ValueOf(digits) < Pow10(|digits|)
  {
    hide Pow10, ValueOf;
    ValueIsBounded(digits);
    assert digits == digits[..1] + digits[1..];
    ValueAppends(digits[..1], digits[1..]);
    FirstIsPositive(digits);
    assert ValueOf(digits[..1]) * Pow10(|digits| - 1) >= Pow10(|digits| - 1);
  }

  lemma FirstIsPositive(digits: string)
    requires Normalized(digits)
    ensures ValueOf(digits[..1]) >= 1
  {
    var d := DigitOf(digits[0]);
    assert ValueOf(digits[..1]) == 10 * ValueOf("") + d by {
      assert digits[..1][..0] == "";
    }
    assert digits[0] == DigitChar(d);
  }

  lemma {:induction false} PowGrows(a: nat, b: nat)
    requires a <= b
    ensures Pow10(a) <= Pow10(b)
  {
    if a < b {
      PowGrows(a, b - 1);
    }
  }

  /** A significand that does not end in zero fixes the exponent. */
  lemma ScaledEndsInZero(m: nat, p: nat)
    requires p > 0
    ensures (m * Pow10(p)) % 10 == 0
  {
    var q := m * Pow10(p - 1);
    assert m * Pow10(p) == 10 * q;
  }

  lemma SameNumberSameParts(a: (nat, int), b: (nat, int))
    requires SameNumber(a, b) && a.0 % 10 != 0 && b.0 % 10 != 0
    ensures a == b
  {
    if a.1 < b.1 {
      ScaledEndsInZero(b.0, b.1 - a.1);
    } else if b.1 < a.1 {
      ScaledEndsInZero(a.0, a.1 - b.1);
    }
  }

  lemma ScaleCancels(x: nat, y: nat, p: nat)
    requires x * Pow10(p) == y * Pow10(p)
    ensures x == y
  {
    hide Pow10;
  }

  /** Numbers equal to one and the same reading are equal to each other. */
  lemma SameNumberMeets(r: (nat, int), a: (nat, int), b: (nat, int))
    requires SameNumber(r, a) && SameNumber(r, b) && r.1 <= a.1 && r.1 <= b.1
    ensures SameNumber(a, b)
  {
    hide Pow10;
    if a.1 <= b.1 {
      PowAdds(b.1 - a.1, a.1 - r.1);
      assert b.0 * Pow10(b.1 - r.1) == (b.0 * Pow10(b.1 - a.1)) * Pow10(a.1 - r.1);
      ScaleCancels(a.0, b.0 * Pow10(b.1 - a.1), a.1 - r.1);
    } else {
      PowAdds(a.1 - b.1, b.1 - r.1);
      assert a.0 * Pow10(a.1 - r.1) == (a.0 * Pow10(a.1 - b.1)) * Pow10(b.1 - r.1);
      ScaleCancels(b.0, a.0 * Pow10(a.1 - b.1), b.1 - r.1);
    }
  }

  /** No layout reads with a greater exponent than the number has. */
  lemma LayoutExponent(digits: string, n: int)
    requires Normalized(digits)
    ensures ReadUnsigned(Unsigned(digits, n)).1 <= n - |digits|
  {
    hide ReadUnsigned, ValueOf, Zeros, Scientific, SameNumber;
    if |digits| <= n <= 21 {
      ReadsWhole(digits + Zeros(n - |digits|), "");
      assert digits + Zeros(n - |digits|) + "" == digits + Zeros(n - |digits|);
    } else if 0 < n <= 21 {
      SplitReads(digits, n);
    } else if -6 < n <= 0 {
      SmallReads(digits, n);
    } else {
      ScientificReads(digits, n);
    }
  }

  /** Distinct signs, digits or exponents never print alike. */
  lemma NumberTextDetermines(negative: bool, digits: string, n: int, negative': bool, digits': string, n': int)
    requires Normalized(digits) && Normalized(digits')
    requires NumberText(negative, digits, n) == NumberText(negative', digits', n')
    ensures negative == negative' && digits == digits' && n == n'
  {
    hide ReadUnsigned, Unsigned, Read, NumberText, ValueOf, SameNumber, Pow10;
    SignReads(negative, digits, n);
    SignReads(negative', digits', n');
    LayoutDenotes(digits, n);
    LayoutDenotes(digits', n');
    LayoutExponent(digits, n);
    LayoutExponent(digits', n');
    var a, b := (ValueOf(digits), n - |digits|), (ValueOf(digits'), n' - |digits'|);
    SameNumberMeets(ReadUnsigned(Unsigned(digits, n)), a, b);
    LastDigitDecides(digits);
    LastDigitDecides(digits');
    SameNumberSameParts(a, b);
    SameLength(digits, digits');
    ValueDetermines(digits, digits');
  }

  lemma SameLength(digits: string, digits': string)
    requires Normalized(digits) && Normalized(digits') && ValueOf(digits) == ValueOf(digits')
    ensures |digits| == |digits'|
  {
    hide Pow10, ValueOf;
    FirstDigitDecides(digits);
    FirstDigitDecides(digits');
    if |digits| < |digits'| {
      PowGrows(|digits|, |digits'| - 1);
    } else if |digits'| < |digits| {
      PowGrows(|digits'|, |digits| - 1);
    }
  }

  // ----- Which layout is chosen -----

  lemma DigitsAreDigits(s: string)
    requires AllDigits(s)
    ensures 'e' !in s && '.' !in s
  {
  }

  /** An exponent is written exactly for numbers of at least 10 to the 21 or below 10 to the -6. */
  lemma ExponentWritten(digits: string, n: int)
    requires Normalized(digits)
    ensures 'e' in Unsigned(digits, n) <==> n > 21 || n < -5
  {
    hide Zeros, Decimal;
    DigitsAreDigits(digits);
    if |digits| <= n <= 21 {
      DigitsAreDigits(Zeros(n - |digits|));
    } else if 0 < n <= 21 {
      DigitsAreDigits(digits[..n]);
      DigitsAreDigits(digits[n..]);
    } else if -6 < n <= 0 {
      DigitsAreDigits(Zeros(-n));
    } else {
      var head := digits[..1] + Fraction(digits[1..]);
      assert Unsigned(digits, n) == head + ("e" + Exponent(n - 1));
      assert Unsigned(digits, n)[|head|] == 'e';
    }
  }

  /** With an exponent: the first digit, a point and the others if there are any, and a signed exponent. */
  lemma ScientificForm(digits: string, n: int)
    requires Normalized(digits) && 'e' in Unsigned(digits, n)
    ensures var text, at := Unsigned(digits, n), if |digits| == 1 then 1 else |digits| + 1;
      && |text| > at + 1 && text[0] == digits[0]
      && (|digits| > 1 ==> text[1] == '.' && text[2..at] == digits[1..])
      && text[at] == 'e' && text[at + 1] == if n >= 1 then '+' else '-'
  {
    hide Exponent, Zeros, Unsigned, Normalized, Fraction;
    ExponentWritten(digits, n);
    UnsignedIsScientific(digits, n);
    ExponentSign(n - 1);
    SomeDigits(digits);
    var tail := "e" + Exponent(n - 1);
    if |digits| > 1 {
      assert Fraction(digits[1..]) == "." + digits[1..] by {
        FractionIs(digits[1..]);
      }
      PointedParts(digits[..1], digits[1..], tail);
    } else {
      FractionIs(digits[1..]);
      assert digits[..1] + "" + tail == digits[..1] + tail;
    }
  }

  lemma SomeDigits(digits: string)
    requires Normalized(digits)
    ensures |digits| >= 1
  {
  }

  lemma FractionIs(rest: string)
    ensures Fraction(rest) == if rest == "" then "" else "." + rest
  {
  }

  lemma PointedParts(first: string, rest: string, tail: string)
    requires |first| == 1 && |tail| >= 2
    ensures var text, at := first + ("." + rest) + tail, |rest| + 2;
      text[0] == first[0] && text[1] == '.' && text[2..at] == rest && text[at] == tail[0] && text[at + 1] == tail[1]
  {
  }

  lemma UnsignedIsScientific(digits: string, n: int)
    requires Normalized(digits) && (n > 21 || n < -5)
    ensures Unsigned(digits, n) == digits[..1] + Fraction(digits[1..]) + ("e" + Exponent(n - 1))
  {
    hide Exponent, Zeros;
  }

  lemma ExponentSign(e: int)
    ensures Exponent(e) != [] && Exponent(e)[0] == if e >= 0 then '+' else '-'
  {
    hide Decimal;
  }

  /** Without one: the digits filled up with zeros, or a point after the first `n`, or behind "0." and zeros. */
  lemma PlainForm(digits: string, n: int)
    requires Normalized(digits) && 'e' !in Unsigned(digits, n)
    ensures var text, k := Unsigned(digits, n), |digits|;
      && (n >= k ==> |text| == n && digits <= text && '.' !in text)
      && (0 < n < k ==> |text| == k + 1 && text[n] == '.' && text[..n] == digits[..n] && text[n + 1..] == digits[n..])
      && (n <= 0 ==> |text| == 2 - n + k && text[..2] == "0." && text[|text| - k..] == digits)
  {
    hide Zeros, Decimal, Scientific;
    ExponentWritten(digits, n);
    DigitsAreDigits(digits);
    if n >= |digits| {
      DigitsAreDigits(Zeros(n - |digits|));
    } else if n > 0 {
      var text := digits[..n] + "." + digits[n..];
      assert text[n + 1..] == digits[n..];
    } else {
      var text := "0." + Zeros(-n) + digits;
      assert text[..2] == "0.";
      assert text[|text| - |digits|..] == digits;
    }
  }
}
