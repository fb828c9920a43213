/**
 A reader of canonical JSON text (RFC 8259, with the rules of section 3.2 of RFC 8785): what it makes
 of the printer's text is the value that was printed.
 */
module JsonReader {
  import opened Wrappers
  import opened Decimals
  import opened Unicode
  import opened Jcs

  // ----- Strings -----

  function HexValue(c: char): Option<nat> {
    if '0' <= c <= '9' then Some((c - '0') as nat)
    else if 'a' <= c <= 'f' then Some((c - 'a') as nat + 10)
    else None
  }

  /** Four lowercase hexadecimal digits. */
  function HexCode(s: string): Option<nat>
    requires |s| == 4
  {
    var a, b := HexValue(s[0]), HexValue(s[1]);
    var c, d := HexValue(s[2]), HexValue(s[3]);
    if a.None? || b.None? || c.None? || d.None? then None
    else Some(0x1000 * a.value + 0x100 * b.value + 0x10 * c.value + d.value)
  }

  /** What a letter after a backslash stands for. */
  function ByLetter(c: char): Option<nat> {
    if c == '"' then Some(0x22)
    else if c == '\\' then Some(0x5C)
    else if c == '/' then Some(0x2F)
    else if c == 'b' then Some(0x08)
    else if c == 'f' then Some(0x0C)
    else if c == 'n' then Some(0x0A)
    else if c == 'r' then Some(0x0D)
    else if c == 't' then Some(0x09)
    else None
  }

  predicate Scalar(n: nat) {
    n < 0xD800 || 0xE000 <= n < 0x11_0000
  }

  /** The character an escape stands for, and what follows it; `s` is the text after the backslash. */
  function ReadEscape(s: string): (r: Option<(char, string)>)
    ensures r.Some? ==> |r.value.1| < |s|
  {
    if s == [] then None
    else if s[0] == 'u' then
      if |s| < 5 || HexCode(s[1..5]).None? || !Scalar(HexCode(s[1..5]).value) then None
      else Some((HexCode(s[1..5]).value as char, s[5..]))
    else if ByLetter(s[0]).Some? then Some((ByLetter(s[0]).value as char, s[1..]))
    else None
  }

  /** The characters up to the closing quote, and what follows it. */
  function ReadChars(s: string): (r: Option<(string, string)>)
    ensures r.Some? ==> |r.value.1| < |s|
    decreases |s|
  {
    if s == [] then None
    else if s[0] == '"' then Some(("", s[1..]))
    else if s[0] == '\\' then
      var e := ReadEscape(s[1..]);
      if e.None? then None
      else
        var rest := ReadChars(e.value.1);
        if rest.None? then None else Some(([e.value.0] + rest.value.0, rest.value.1))
    else if Code(s[0]) < 0x20 then None
    else
      var rest := ReadChars(s[1..]);
      if rest.None? then None else Some(([s[0]] + rest.value.0, rest.value.1))
  }

  /** Escaped are exactly the quote, the backslash and the control characters, by letter where there is one. */
  lemma EscapesExactly(c: char)
    ensures EscapeChar(c) == [c] <==> c != '"' && c != '\\' && Code(c) >= 0x20
    ensures EscapeChar(c) != [c] ==> EscapeChar(c)[0] == '\\'
    ensures |EscapeChar(c)| == 2 <==> c == '"' || c == '\\' || Code(c) in {0x08, 0x09, 0x0A, 0x0C, 0x0D}
    ensures |EscapeChar(c)| == 1 || |EscapeChar(c)| == 2 || |EscapeChar(c)| == 6
  {
  }

  lemma HexReads(n: nat)
    requires n < 16
    ensures HexValue(HexDigit(n)) == Some(n)
  {
  }

  lemma CodeIs(c: char, n: nat)
    requires Code(c) == n && Scalar(n)
    ensures n as char == c
  {
  }

  lemma ControlReads(c: char, s: string)
    requires Code(c) < 0x20
    ensures var text := "u00" + [HexDigit(Code(c) / 16), HexDigit(Code(c) % 16)];
      ReadEscape(text + s) == Some((c, s))
  {
    var n := Code(c);
    var text := "u00" + [HexDigit(n / 16), HexDigit(n % 16)];
    var line := text + s;
    HexReads(n / 16);
    HexReads(n % 16);
    assert line[1..5] == "00" + [HexDigit(n / 16), HexDigit(n % 16)];
    assert line[5..] == s;
    assert HexCode(line[1..5]) == Some(n);
    CodeIs(c, n);
  }

  lemma LetterReads(c: char, s: string)
    requires |EscapeChar(c)| == 2
    ensures ReadEscape(EscapeChar(c)[1..] + s) == Some((c, s))
  {
    var line := EscapeChar(c)[1..] + s;
    assert line[0] == EscapeChar(c)[1] && line[1..] == s;
    CodeIs(c, Code(c));
    assert ByLetter(line[0]) == Some(Code(c));
  }

  /** Reading one written character gives it back and goes on behind it. */
  lemma CharReads(c: char, s: string)
    ensures var r := ReadChars(s);
      ReadChars(EscapeChar(c) + s) == if r.None? then None else Some(([c] + r.value.0, r.value.1))
  {
    hide ReadEscape;
    var line := EscapeChar(c) + s;
    EscapesExactly(c);
    if EscapeChar(c) == [c] {
      assert line[0] == c && line[1..] == s;
    } else {
      assert line[0] == '\\' && line[1..] == EscapeChar(c)[1..] + s;
      if |EscapeChar(c)| == 2 {
        LetterReads(c, s);
      } else {
        ControlReads(c, s);
        assert EscapeChar(c)[1..] == "u00" + [HexDigit(Code(c) / 16), HexDigit(Code(c) % 16)];
      }
    }
  }

  /** The reader undoes the printer on every string, whatever follows it. */
  lemma {:induction false} StringReads(a: string, s: string)
    ensures ReadChars(RestOfString(a) + s) == Some((a, s))
  {
    hide EscapeChar;
    if a == [] {
      var line := "\"" + s;
      assert line[0] == '"' && line[1..] == s;
    } else {
      StringReads(a[1..], s);
      var rest := RestOfString(a[1..]) + s;
      assert RestOfString(a) + s == EscapeChar(a[0]) + rest;
      CharReads(a[0], rest);
      assert [a[0]] + a[1..] == a;
    }
  }

  // ----- Values -----

  /** Digits without a leading zero, unless zero is all there is; and a sign only before another number. */
  function ReadInteger(s: string): (r: Option<(int, string)>)
    ensures r.Some? ==> |r.value.1| < |s|
  {
    var negative := s != [] && s[0] == '-';
    var digits := if negative then s[1..] else s;
    var n := DigitCount(digits);
    if n == 0 || (digits[0] == '0' && (n > 1 || negative)) then None
    else
      var magnitude: int := ValueOf(digits[..n]);
      Some((if negative then -magnitude else magnitude, digits[n..]))
  }

  function After(head: string, s: string, v: Value): (r: Option<(Value, string)>)
    requires head != []
    ensures r.Some? ==> |r.value.1| < |s|
  {
    if head <= s then Some((v, s[|head|..])) else None
  }

  type Pair = (string, Value)

  /** One value without white space around it, and what follows it. */
  function ReadValue(s: string): (r: Option<(Value, string)>)
    ensures r.Some? ==> |r.value.1| < |s|
    decreases |s|, 0
  {
    if s == [] then None
    else if s[0] == 'n' then After("null", s, Null)
    else if s[0] == 't' then After("true", s, Bool(true))
    else if s[0] == 'f' then After("false", s, Bool(false))
    else if s[0] == '"' then
      var r := ReadChars(s[1..]);
      if r.None? then None else Some((String(r.value.0), r.value.1))
    else if s[0] == '[' then
      var r := if |s| > 1 && s[1] == ']' then Some(([], s[2..])) else ReadItems(s[1..]);
      if r.None? then None else Some((Array(r.value.0), r.value.1))
    else if s[0] == '{' then
      var r := if |s| > 1 && s[1] == '}' then Some(([], s[2..])) else ReadMembers(s[1..]);
      if r.None? || !Ascending(r.value.0) then None else Some((Object(MapOf(r.value.0)), r.value.1))
    else
      var r := ReadInteger(s);
      if r.None? then None else Some((Number(r.value.0), r.value.1))
  }

  /** At least one item, up to the closing bracket. */
  function ReadItems(s: string): (r: Option<(seq<Value>, string)>)
    ensures r.Some? ==> |r.value.1| < |s|
    decreases |s|, 1
  {
    var v := ReadValue(s);
    if v.None? || v.value.1 == [] then None
    else
      var rest := v.value.1;
      if rest[0] == ']' then Some(([v.value.0], rest[1..]))
      else if rest[0] != ',' then None
      else
        var more := ReadItems(rest[1..]);
        if more.None? then None else Some(([v.value.0] + more.value.0, more.value.1))
  }

  /** At least one member, up to the closing brace. */
  function ReadMembers(s: string): (r: Option<(seq<Pair>, string)>)
    ensures r.Some? ==> |r.value.1| < |s|
    decreases |s|, 1
  {
    if s == [] || s[0] != '"' then None
    else
      var k := ReadChars(s[1..]);
      if k.None? || k.value.1 == [] || k.value.1[0] != ':' then None
      else
        var v := ReadValue(k.value.1[1..]);
        if v.None? || v.value.1 == [] then None
        else
          var rest := v.value.1;
          if rest[0] == '}' then Some(([(k.value.0, v.value.0)], rest[1..]))
          else if rest[0] != ',' then None
          else
            var more := ReadMembers(rest[1..]);
            if more.None? then None else Some(([(k.value.0, v.value.0)] + more.value.0, more.value.1))
  }

  /** Keys strictly ascending in UTF-16 code units, so none twice. */
  predicate Ascending(pairs: seq<Pair>) {
    forall i, j :: 0 <= i < j < |pairs| ==> KeyBefore(pairs[i].0, pairs[j].0)
  }

  function MapOf(pairs: seq<Pair>): map<string, Value> {
    if pairs == [] then map[] else MapOf(pairs[..|pairs| - 1])[pairs[|pairs| - 1].0 := pairs[|pairs| - 1].1]
  }

  // ----- Reading what was printed -----

  lemma {:induction false} NoLeadingZero(n: nat)
    ensures Decimal(n)[0] == '0' <==> n == 0
    ensures n == 0 ==> |Decimal(n)| == 1
  {
    if n >= 10 {
      NoLeadingZero(n / 10);
      assert Decimal(n)[0] == Decimal(n / 10)[0];
    }
  }

  lemma IntegerReads(n: int, s: string)
    requires NoDigit(s)
    ensures ReadInteger(Integer(n) + s) == Some((n, s))
  {
    hide Decimal, ValueOf, DigitCount;
    var digits := Decimal(if n < 0 then -n else n);
    NoLeadingZero(if n < 0 then -n else n);
    CountStopsAtEnd(digits, s);
    var line := Integer(n) + s;
    if n < 0 {
      assert line == "-" + (digits + s);
      assert line[1..] == digits + s;
    } else {
      assert line == digits + s && IsDigit(line[0]);
    }
    assert (digits + s)[..|digits|] == digits && (digits + s)[|digits|..] == s;
    assert (digits + s)[0] == digits[0];
  }

  lemma WordReads(word: string, s: string, v: Value)
    requires word != []
    ensures After(word, word + s, v) == Some((v, s))
  {
    assert (word + s)[|word|..] == s;
  }

  /** The members from number `i` on, as the reader lists them. */
  function Pairs(v: Value, keys: seq<string>, i: nat): seq<Pair>
    requires v.Object? && i <= |keys| && forall k :: k in keys ==> k in v.members
    decreases |keys| - i
  {
    if i == |keys| then [] else [(keys[i], v.members[keys[i]])] + Pairs(v, keys, i + 1)
  }

  lemma {:induction false} PairsAre(v: Value, keys: seq<string>, i: nat)
    requires v.Object? && i <= |keys| && forall k :: k in keys ==> k in v.members
    ensures |Pairs(v, keys, i)| == |keys| - i
    ensures forall j :: 0 <= j < |keys| - i ==> Pairs(v, keys, i)[j] == (keys[i + j], v.members[keys[i + j]])
    decreases |keys| - i
  {
    if i < |keys| {
      PairsAre(v, keys, i + 1);
    }
  }

  lemma {:induction false} MapOfAscending(pairs: seq<Pair>)
    requires Ascending(pairs)
    ensures forall i :: 0 <= i < |pairs| ==> pairs[i].0 in MapOf(pairs) && MapOf(pairs)[pairs[i].0] == pairs[i].1
    ensures forall k :: k in MapOf(pairs) ==> exists i :: 0 <= i < |pairs| && pairs[i].0 == k
  {
    hide KeyBefore;
    if pairs != [] {
      var n := |pairs| - 1;
      var init := pairs[..n];
      MapOfAscending(init);
      forall i | 0 <= i < n ensures pairs[i].0 != pairs[n].0 {
        KeysOrdered(pairs[i].0, pairs[n].0);
        KeysOrdered(pairs[n].0, pairs[n].0);
      }
      forall k | k in MapOf(pairs) ensures exists i :: 0 <= i < |pairs| && pairs[i].0 == k {
        if k == pairs[n].0 {
          assert pairs[n].0 == k;
        } else {
          assert k in MapOf(init);
          var i :| 0 <= i < |init| && init[i].0 == k;
          assert pairs[i].0 == k;
        }
      }
    }
  }

  lemma ObjectReads(v: Value, keys: seq<string>)
    requires v.Object? && SortedListing(keys, v.members.Keys)
    ensures Ascending(Pairs(v, keys, 0)) && MapOf(Pairs(v, keys, 0)) == v.members
  {
    hide KeyBefore, MapOf, Pairs;
    var pairs := Pairs(v, keys, 0);
    PairsAre(v, keys, 0);
    forall i, j | 0 <= i < j < |pairs| ensures KeyBefore(pairs[i].0, pairs[j].0) {
      assert pairs[i].0 == keys[0 + i] && pairs[j].0 == keys[0 + j];
    }
    MapOfAscending(pairs);
    forall k | k in v.members ensures k in MapOf(pairs) && MapOf(pairs)[k] == v.members[k] {
      assert k in keys;
      var i :| 0 <= i < |keys| && keys[i] == k;
      assert pairs[i] == (keys[0 + i], v.members[keys[0 + i]]);
    }
    forall k | k in MapOf(pairs) ensures k in v.members {
      var i :| 0 <= i < |pairs| && pairs[i].0 == k;
      assert pairs[i].0 == keys[0 + i];
    }
  }

  /** The reader gives back every printed value, whatever follows it that is not a digit. */
  lemma {:induction false} ValueReads(v: Value, s: string)
    requires NoDigit(s)
    ensures ReadValue(Print(v) + s) == Some((v, s))
    decreases v, 1, 0
  {
    hide Integer, RestOfString, RestOfItems, RestOfMembers, NoDigit, ReadChars, ReadInteger, ReadItems, ReadMembers, Ascending, MapOf, After;
    var line := Print(v) + s;
    PrintLeads(v);
    assert line[0] == Print(v)[0];
    match v {
      case Null => WordReads("null", s, v);
      case Bool(b) => WordReads(Print(v), s, v);
      case Number(n) =>
        hide Leads;
        NumberLeads(n, s);
        IntegerReads(n, s);
      case String(a) =>
        assert line[1..] == RestOfString(a) + s;
        StringReads(a, s);
      case Array(items) =>
        var text := RestOfItems(v, 0) + s;
        ArrayReads(v, s);
        assert line == "[" + text;
        assert line[1..] == text && line[1] == text[0] && line[2..] == text[1..];
      case Object(members) =>
        var keys := SortedKeys(members.Keys);
        var text := RestOfMembers(v, keys, 0) + s;
        ObjectBodyReads(v, keys, s);
        assert line == "{" + text;
        assert line[1..] == text && line[1] == text[0] && line[2..] == text[1..];
        ObjectReads(v, keys);
        assert keys == [] ==> Pairs(v, keys, 0) == [];
    }
  }

  lemma NumberLeads(n: int, s: string)
    ensures var line := Integer(n) + s;
      line != [] && (line[0] == '-' || IsDigit(line[0]))
  {
    hide Decimal;
  }

  lemma {:induction false} ArrayReads(v: Value, s: string)
    requires v.Array?
    ensures RestOfItems(v, 0) != []
    ensures var text := RestOfItems(v, 0) + s;
      if v.items == [] then text[0] == ']' && text[1..] == s
      else text[0] != ']' && ReadItems(text) == Some((v.items, s))
    decreases v, 0, |v.items| + 1
  {
    hide ReadItems, Print;
    if v.items == [] {
      assert ("]" + s)[1..] == s;
    } else {
      ItemsUnroll(v, 0, s);
      ItemsRead(v, 0, s);
      assert v.items[0..] == v.items;
    }
  }

  lemma {:induction false} ItemsRead(v: Value, i: nat, s: string)
    requires v.Array? && i < |v.items|
    ensures ReadItems(Print(v.items[i]) + (RestOfItems(v, i + 1) + s)) == Some((v.items[i..], s))
    ensures i == 0 ==> RestOfItems(v, 0) + s == Print(v.items[0]) + (RestOfItems(v, 1) + s)
    decreases v, 0, |v.items| - i
  {
    hide Print, NoDigit, ReadValue, RestOfItems;
    var rest := RestOfItems(v, i + 1) + s;
    ItemsUnroll(v, i, s);
    ItemsUnroll(v, i + 1, s);
    ValueReads(v.items[i], rest);
    assert Comma(0) + (Print(v.items[i]) + rest) == Print(v.items[i]) + rest;
    if i + 1 < |v.items| {
      ItemsRead(v, i + 1, s);
      var more := Print(v.items[i + 1]) + (RestOfItems(v, i + 2) + s);
      assert rest == "," + more;
      assert rest[0] == ',' && rest[1..] == more;
      assert v.items[i..] == [v.items[i]] + v.items[i + 1..];
    } else {
      ItemsEnd(v);
      assert rest == "]" + s && rest[0] == ']' && rest[1..] == s;
      assert v.items[i..] == [v.items[i]];
    }
  }

  lemma {:induction false} ObjectBodyReads(v: Value, keys: seq<string>, s: string)
    requires v.Object? && forall k :: k in keys ==> k in v.members
    ensures RestOfMembers(v, keys, 0) != []
    ensures var text := RestOfMembers(v, keys, 0) + s;
      if keys == [] then text[0] == '}' && text[1..] == s
      else text[0] != '}' && ReadMembers(text) == Some((Pairs(v, keys, 0), s))
    decreases v, 0, |keys| + 1
  {
    hide ReadMembers, Print;
    if keys == [] {
      assert ("}" + s)[1..] == s;
    } else {
      MembersUnroll(v, keys, 0, s);
      MembersRead(v, keys, 0, s);
    }
  }

  /** Member `i` of an object and all that follows it, as the printer writes them. */
  ghost function MemberText(v: Value, keys: seq<string>, i: nat, s: string): string
    requires v.Object? && i < |keys| && forall k :: k in keys ==> k in v.members
  {
    "\"" + (RestOfString(keys[i]) + (":" + (Print(v.members[keys[i]]) + (RestOfMembers(v, keys, i + 1) + s))))
  }

  lemma {:induction false} MembersRead(v: Value, keys: seq<string>, i: nat, s: string)
    requires v.Object? && i < |keys| && forall k :: k in keys ==> k in v.members
    ensures ReadMembers(MemberText(v, keys, i, s)) == Some((Pairs(v, keys, i), s))
    ensures i == 0 ==> RestOfMembers(v, keys, 0) + s == MemberText(v, keys, 0, s)
    decreases v, 0, |keys| - i
  {
    hide Print, NoDigit, ReadValue, RestOfMembers, RestOfString, ReadChars;
    var line := MemberText(v, keys, i, s);
    var rest := RestOfMembers(v, keys, i + 1) + s;
    var value := Print(v.members[keys[i]]) + rest;
    MembersUnroll(v, keys, i, s);
    MembersUnroll(v, keys, i + 1, s);
    assert Comma(0) + line == line;
    assert line[1..] == RestOfString(keys[i]) + (":" + value);
    StringReads(keys[i], ":" + value);
    assert (":" + value)[1..] == value;
    ValueReads(v.members[keys[i]], rest);
    if i + 1 < |keys| {
      MembersRead(v, keys, i + 1, s);
      assert rest == "," + MemberText(v, keys, i + 1, s);
      assert rest[1..] == MemberText(v, keys, i + 1, s);
    } else {
      MembersEnd(v, keys);
      assert rest == "}" + s && rest[0] == '}' && rest[1..] == s;
      assert Pairs(v, keys, i) == [(keys[i], v.members[keys[i]])];
    }
  }

  /** A whole canonical text is read as exactly its value, with nothing left over. */
  lemma CanonicalTextReads(v: Value)
    ensures ReadValue(Print(v)) == Some((v, ""))
  {
    hide Print, ReadValue;
    ValueReads(v, "");
    assert Print(v) + "" == Print(v);
  }
}
