/**
 RFC 8785 canonical text of strict JSON values: what the printer writes, and that its output
 determines the value, whatever follows it.
 */
module Jcs {
  import opened Wrappers
  import opened Decimals
  import opened Unicode

  // ----- Values -----

  const MAX_INTEROPERABLE_INT: int := 9_007_199_254_740_991

  /** Integers are the only numbers a strict document can hold. */
  datatype Value =
    | Null
    | Bool(b: bool)
    | Number(n: int)
    | String(s: string)
    | Array(items: seq<Value>)
    | Object(members: map<string, Value>)

  predicate InteroperableInt(n: int) {
    -MAX_INTEROPERABLE_INT <= n <= MAX_INTEROPERABLE_INT
  }

  predicate Interoperable(v: Value) {
    match v
    case Number(n) => InteroperableInt(n)
    case Array(items) => forall i :: 0 <= i < |items| ==> Interoperable(items[i])
    case Object(members) => forall k :: k in members ==> Interoperable(members[k])
    case _ => true
  }

  // ----- Strings -----

  function HexDigit(n: nat): char
    requires n < 16
  {
    if n < 10 then n as char + '0' else (n - 10) as char + 'a'
  }

  function EscapeChar(c: char): (e: string)
    ensures e != []
  {
    if c == '"' then "\\\""
    else if c == '\\' then "\\\\"
    else if Code(c) == 0x8 then "\\b"
    else if Code(c) == 0x9 then "\\t"
    else if Code(c) == 0xA then "\\n"
    else if Code(c) == 0xC then "\\f"
    else if Code(c) == 0xD then "\\r"
    else if Code(c) < 0x20 then "\\u00" + [HexDigit(Code(c) / 16), HexDigit(Code(c) % 16)]
    else [c]
  }

  /** What remains to be written of a string, closing quote included. */
  function RestOfString(s: string): (text: string)
    ensures text != []
  {
    if s == [] then "\"" else EscapeChar(s[0]) + RestOfString(s[1..])
  }

  function Quoted(s: string): string {
    "\"" + RestOfString(s)
  }

  // ----- The canonical text -----

  ghost predicate SortedListing(keys: seq<string>, s: set<string>) {
    && (forall k :: k in keys <==> k in s)
    && forall i, j :: 0 <= i < j < |keys| ==> KeyBefore(keys[i], keys[j])
  }

  lemma {:induction false} SortedListingUnique(a: seq<string>, b: seq<string>, s: set<string>)
    requires SortedListing(a, s) && SortedListing(b, s)
    ensures a == b
  {
    assert (a != [] ==> a[0] in b) && (b != [] ==> b[0] in a);
    if a != [] {
      FirstsEqual(a, b, s);
      TailListing(a, s);
      TailListing(b, s);
      SortedListingUnique(a[1..], b[1..], s - {a[0]});
    }
  }

  lemma FirstsEqual(a: seq<string>, b: seq<string>, s: set<string>)
    requires SortedListing(a, s) && SortedListing(b, s) && a != [] && b != []
    ensures a[0] == b[0]
  {
    assert a[0] in b && b[0] in a;
    var i :| 0 <= i < |b| && b[i] == a[0];
    var j :| 0 <= j < |a| && a[j] == b[0];
    KeysOrdered(a[0], b[0]);
  }

  lemma TailListing(a: seq<string>, s: set<string>)
    requires SortedListing(a, s) && a != []
    ensures SortedListing(a[1..], s - {a[0]})
  {
    KeysOrdered(a[0], a[0]);
  }

  /** Exists for every set, so the canonical text is defined. */
  lemma {:induction false} ListingExists(s: set<string>)
    ensures exists keys :: SortedListing(keys, s)
    decreases s
  {
    if s == {} {
      assert SortedListing([], s);
    } else {
      var k := LeastKey(s);
      ListingExists(s - {k});
      var rest :| SortedListing(rest, s - {k});
      assert SortedListing([k] + rest, s);
    }
  }

  lemma {:induction false} LeastKey(s: set<string>) returns (k: string)
    requires s != {}
    ensures k in s && forall o :: o in s && o != k ==> KeyBefore(k, o)
    decreases s
  {
    k :| k in s;
    if s != {k} {
      var m := LeastKey(s - {k});
      KeysOrdered(k, m);
      if KeyBefore(m, k) {
        k := m;
      } else {
        forall o | o in s && o != k ensures KeyBefore(k, o) {
          if o != m {
            KeysTransitive(k, m, o);
          }
        }
      }
    }
  }

  /** The keys of an object in their canonical order. */
  ghost function SortedKeys(s: set<string>): (keys: seq<string>)
    ensures SortedListing(keys, s)
  {
    ListingExists(s);
    var keys :| SortedListing(keys, s);
    keys
  }

  ghost function Print(v: Value): (text: string)
    decreases v, 1, 0
  {
    match v
    case Null => "null"
    case Bool(b) => if b then "true" else "false"
    case Number(n) => Integer(n)
    case String(s) => Quoted(s)
    case Array(items) => "[" + RestOfItems(v, 0)
    case Object(members) => "{" + RestOfMembers(v, SortedKeys(members.Keys), 0)
  }

  function Comma(i: nat): string {
    if i > 0 then "," else ""
  }

  /** What remains to be written of an array from item `i`, closing bracket included. */
  ghost function RestOfItems(v: Value, i: nat): (text: string)
    requires v.Array? && i <= |v.items|
    decreases v, 0, |v.items| - i
  {
    if i == |v.items| then "]" else Comma(i) + Print(v.items[i]) + RestOfItems(v, i + 1)
  }

  /** What remains to be written of an object from member `i`, closing brace included. */
  ghost function RestOfMembers(v: Value, keys: seq<string>, i: nat): (text: string)
    requires v.Object? && i <= |keys| && forall k :: k in keys ==> k in v.members
    decreases v, 0, |keys| - i
  {
    if i == |keys| then "}"
    else Comma(i) + Quoted(keys[i]) + ":" + Print(v.members[keys[i]]) + RestOfMembers(v, keys, i + 1)
  }

  // ----- The printed text determines the value -----

  /** Two texts that are equal and begin alike are equal after that beginning. */
  lemma SameRest(head: string, a: string, b: string)
    requires head + a == head + b
    ensures a == b
  {
    assert a == (head + a)[|head|..] && b == (head + b)[|head|..];
  }

  lemma EscapeDetermines(c: char, d: char, s: string, t: string)
    requires EscapeChar(c) + s == EscapeChar(d) + t
    ensures c == d && s == t
  {
    var line := EscapeChar(c) + s;
    assert line[0] == EscapeChar(c)[0] && line[0] == EscapeChar(d)[0];
    if line[0] == '\\' {
      assert line[1] == EscapeChar(c)[1] && line[1] == EscapeChar(d)[1];
      if line[1] == 'u' {
        assert line[4] == EscapeChar(c)[4] && line[4] == EscapeChar(d)[4];
        assert line[5] == EscapeChar(c)[5] && line[5] == EscapeChar(d)[5];
      }
    }
    assert c == d;
    SameRest(EscapeChar(c), s, t);
  }

  lemma {:induction false} StringDetermines(a: string, b: string, s: string, t: string)
    requires RestOfString(a) + s == RestOfString(b) + t
    ensures a == b && s == t
  {
    hide EscapeChar;
    QuoteStays(a, s);
    QuoteStays(b, t);
    if a != [] && b != [] {
      EscapeDetermines(a[0], b[0], RestOfString(a[1..]) + s, RestOfString(b[1..]) + t);
      StringDetermines(a[1..], b[1..], s, t);
      assert a == [a[0]] + a[1..] && b == [b[0]] + b[1..];
    } else if a == [] && b == [] {
      SameRest("\"", s, t);
    }
  }

  lemma EscapeIsNoQuote(c: char)
    ensures EscapeChar(c)[0] != '"'
  {
  }

  /** Only the end of a string shows as a bare quote; an escaped character never does. */
  lemma QuoteStays(a: string, s: string)
    ensures (RestOfString(a) + s)[0] == '"' <==> a == []
    ensures a != [] ==> RestOfString(a) + s == EscapeChar(a[0]) + (RestOfString(a[1..]) + s)
  {
    hide EscapeChar;
    if a != [] {
      EscapeIsNoQuote(a[0]);
      var line := EscapeChar(a[0]) + (RestOfString(a[1..]) + s);
      assert line[0] == EscapeChar(a[0])[0];
      assert RestOfString(a) + s == line;
    }
  }

  /** The first character of a printed value tells its kind. */
  predicate Leads(c: char, v: Value) {
    match v
    case Null => c == 'n'
    case Bool(b) => c == if b then 't' else 'f'
    case Number(_) => c == '-' || IsDigit(c)
    case String(_) => c == '"'
    case Array(_) => c == '['
    case Object(_) => c == '{'
  }

  lemma PrintLeads(v: Value)
    ensures Print(v) != [] && Leads(Print(v)[0], v)
  {
    hide Decimal, RestOfString, RestOfItems, RestOfMembers;
    if v.Number? {
      assert Integer(v.n) != [];
    }
  }

  lemma LeadsAgree(c: char, v: Value, w: Value)
    requires Leads(c, v) && Leads(c, w)
    ensures v.Null? == w.Null? && v.Bool? == w.Bool? && v.Number? == w.Number? && v.String? == w.String?
            && v.Array? == w.Array? && v.Object? == w.Object?
    ensures v.Bool? ==> v == w
  {
  }

  lemma {:induction false} PrintDetermines(v: Value, w: Value, s: string, t: string)
    requires NoDigit(s) && NoDigit(t) && Print(v) + s == Print(w) + t
    ensures v == w && s == t
    decreases v, 1, 0
  {
    hide Integer, RestOfString, RestOfItems, RestOfMembers, NoDigit;
    PrintLeads(v);
    PrintLeads(w);
    var line := Print(v) + s;
    assert line[0] == Print(v)[0] && line[0] == Print(w)[0];
    LeadsAgree(line[0], v, w);
    match v {
      case Null => SameRest("null", s, t);
      case Bool(b) => SameRest(Print(v), s, t);
      case Number(n) => IntegerDetermines(n, w.n, s, t);
      case String(a) =>
        assert line == "\"" + (RestOfString(a) + s) && line == "\"" + (RestOfString(w.s) + t);
        SameRest("\"", RestOfString(a) + s, RestOfString(w.s) + t);
        StringDetermines(a, w.s, s, t);
      case Array(items) =>
        assert line == "[" + (RestOfItems(v, 0) + s) && line == "[" + (RestOfItems(w, 0) + t);
        SameRest("[", RestOfItems(v, 0) + s, RestOfItems(w, 0) + t);
        ItemsDetermine(v, w, 0, s, t);
      case Object(members) =>
        var kv, kw := SortedKeys(members.Keys), SortedKeys(w.members.Keys);
        assert line == "{" + (RestOfMembers(v, kv, 0) + s) && line == "{" + (RestOfMembers(w, kw, 0) + t);
        SameRest("{", RestOfMembers(v, kv, 0) + s, RestOfMembers(w, kw, 0) + t);
        MembersDetermine(v, w, kv, kw, 0, s, t);
        assert v.members == w.members;
    }
  }

  lemma ItemsUnroll(v: Value, i: nat, s: string)
    requires v.Array? && i <= |v.items|
    ensures RestOfItems(v, i) != [] && NoDigit(Comma(1) + s)
    ensures (RestOfItems(v, i) + s)[0] == ']' <==> i == |v.items|
    ensures i > 0 ==> NoDigit(RestOfItems(v, i) + s)
    ensures i < |v.items| ==>
              RestOfItems(v, i) + s == Comma(i) + (Print(v.items[i]) + (RestOfItems(v, i + 1) + s))
  {
    hide Print;
    if i < |v.items| {
      PrintLeads(v.items[i]);
      var line := Comma(i) + (Print(v.items[i]) + (RestOfItems(v, i + 1) + s));
      assert RestOfItems(v, i) + s == line;
      assert line[0] == if i > 0 then ',' else Print(v.items[i])[0];
    }
  }

  lemma {:induction false} ItemsDetermine(v: Value, w: Value, i: nat, s: string, t: string)
    requires v.Array? && w.Array? && i <= |v.items| && i <= |w.items| && v.items[..i] == w.items[..i]
    requires RestOfItems(v, i) + s == RestOfItems(w, i) + t
    ensures v.items == w.items && s == t
    decreases v, 0, |v.items| - i
  {
    hide Print, RestOfItems, Comma, NoDigit;
    ItemsUnroll(v, i, s);
    ItemsUnroll(w, i, t);
    if i < |v.items| {
      var a, b := RestOfItems(v, i + 1) + s, RestOfItems(w, i + 1) + t;
      SameRest(Comma(i), Print(v.items[i]) + a, Print(w.items[i]) + b);
      ItemsUnroll(v, i + 1, s);
      ItemsUnroll(w, i + 1, t);
      PrintDetermines(v.items[i], w.items[i], a, b);
      ItemsDetermine(v, w, i + 1, s, t);
    } else {
      ItemsEnd(v);
      ItemsEnd(w);
      SameRest("]", s, t);
    }
  }

  lemma ItemsEnd(v: Value)
    requires v.Array?
    ensures RestOfItems(v, |v.items|) == "]"
  {
  }

  lemma MembersUnroll(v: Value, keys: seq<string>, i: nat, s: string)
    requires v.Object? && i <= |keys| && forall k :: k in keys ==> k in v.members
    ensures RestOfMembers(v, keys, i) != []
    ensures (RestOfMembers(v, keys, i) + s)[0] == '}' <==> i == |keys|
    ensures NoDigit(RestOfMembers(v, keys, i) + s)
    ensures i < |keys| ==>
              RestOfMembers(v, keys, i) + s ==
              Comma(i) + ("\"" + (RestOfString(keys[i]) + (":" + (Print(v.members[keys[i]]) + (RestOfMembers(v, keys, i + 1) + s)))))
  {
    hide Print, RestOfString;
    if i < |keys| {
      var value, rest := Print(v.members[keys[i]]), RestOfMembers(v, keys, i + 1) + s;
      var line := Comma(i) + ("\"" + (RestOfString(keys[i]) + (":" + (value + rest))));
      assert RestOfMembers(v, keys, i) + s == line;
      assert line[0] == if i > 0 then ',' else '"';
    }
  }

  lemma {:induction false} MembersDetermine(
    v: Value, w: Value, kv: seq<string>, kw: seq<string>, i: nat, s: string, t: string)
    requires v.Object? && w.Object? && i <= |kv| && i <= |kw| && kv[..i] == kw[..i]
    requires (forall k :: k in kv ==> k in v.members) && forall k :: k in kw ==> k in w.members
    requires forall k :: k in kv[..i] ==> v.members[k] == w.members[k]
    requires RestOfMembers(v, kv, i) + s == RestOfMembers(w, kw, i) + t
    ensures kv == kw && s == t
    ensures forall k :: k in kv ==> v.members[k] == w.members[k]
    decreases v, 0, |kv| - i
  {
    hide Print, RestOfMembers, RestOfString, Comma, NoDigit;
    MembersUnroll(v, kv, i, s);
    MembersUnroll(w, kw, i, t);
    if i < |kv| {
      var a, b := RestOfMembers(v, kv, i + 1) + s, RestOfMembers(w, kw, i + 1) + t;
      var x, y := Print(v.members[kv[i]]) + a, Print(w.members[kw[i]]) + b;
      SameRest(Comma(i), "\"" + (RestOfString(kv[i]) + (":" + x)), "\"" + (RestOfString(kw[i]) + (":" + y)));
      SameRest("\"", RestOfString(kv[i]) + (":" + x), RestOfString(kw[i]) + (":" + y));
      StringDetermines(kv[i], kw[i], ":" + x, ":" + y);
      SameRest(":", x, y);
      MembersUnroll(v, kv, i + 1, s);
      MembersUnroll(w, kw, i + 1, t);
      PrintDetermines(v.members[kv[i]], w.members[kw[i]], a, b);
      assert kv[..i + 1] == kv[..i] + [kv[i]] && kw[..i + 1] == kw[..i] + [kw[i]];
      MembersDetermine(v, w, kv, kw, i + 1, s, t);
    } else {
      MembersEnd(v, kv);
      MembersEnd(w, kw);
      SameRest("}", s, t);
      assert kv[..i] == kv && kw[..i] == kw;
    }
  }

  lemma MembersEnd(v: Value, keys: seq<string>)
    requires v.Object? && forall k :: k in keys ==> k in v.members
    ensures RestOfMembers(v, keys, |keys|) == "}"
  {
  }

  // ----- Canonical bytes -----

  ghost function CanonicalBytes(v: Value): seq<Octet> {
    Utf8(Print(v))
  }

  /** Equal canonical bytes are equal values. */
  lemma CanonicalBytesDetermine(v: Value, w: Value)
    requires CanonicalBytes(v) == CanonicalBytes(w)
    ensures v == w
  {
    hide Print;
    Utf8Determines(Print(v), Print(w));
    PrintDetermines(v, w, "", "");
  }

  // ----- The printer -----

  method WriteString(s: string, out: string) returns (text: string)
    ensures text == out + Quoted(s)
  {
    hide EscapeChar;
    text := out + "\"";
    for i := 0 to |s|
      invariant text + RestOfString(s[i..]) == out + Quoted(s)
    {
      assert s[i..][1..] == s[i + 1..];
      text := text + EscapeChar(s[i]);
    }
    text := text + "\"";
    assert s[|s|..] == [];
  }

  function InsertKey(sorted: seq<string>, k: string): seq<string> {
    if sorted == [] || KeyBefore(k, sorted[0]) then [k] + sorted else [sorted[0]] + InsertKey(sorted[1..], k)
  }

  lemma {:induction false} InsertKeepsOrder(sorted: seq<string>, s: set<string>, k: string)
    requires SortedListing(sorted, s) && k !in s
    ensures SortedListing(InsertKey(sorted, k), s + {k})
  {
    hide KeyBefore;
    if sorted == [] {
    } else if KeyBefore(k, sorted[0]) {
      forall i | 0 <= i < |sorted| ensures KeyBefore(k, sorted[i]) {
        if i > 0 {
          KeysTransitive(k, sorted[0], sorted[i]);
        }
      }
    } else {
      KeysOrdered(k, sorted[0]);
      TailListing(sorted, s);
      InsertKeepsOrder(sorted[1..], s - {sorted[0]}, k);
      assert s - {sorted[0]} + {k} + {sorted[0]} == s + {k};
      var rest := InsertKey(sorted[1..], k);
      forall i | 0 <= i < |rest| ensures KeyBefore(sorted[0], rest[i]) {
        assert rest[i] in s - {sorted[0]} + {k};
        if rest[i] != k {
          var j :| 0 <= j < |sorted| && sorted[j] == rest[i];
        }
      }
    }
  }

  /** Lists the keys in whatever order the map holds them and sorts them. */
  method SortKeys(s: set<string>) returns (keys: seq<string>)
    ensures keys == SortedKeys(s)
  {
    keys := [];
    var left := s;
    while left != {}
      invariant left <= s && SortedListing(keys, s - left)
    {
      var k :| k in left;
      InsertKeepsOrder(keys, s - left, k);
      assert s - left + {k} == s - (left - {k});
      keys := InsertKey(keys, k);
      left := left - {k};
    }
    assert s - left == s;
    SortedListingUnique(keys, SortedKeys(s), s);
  }

  /** Writes the value after what is there, or stops at the first number that is not interoperable. */
  method WriteValue(v: Value, out: string) returns (text: Option<string>)
    ensures text == if Interoperable(v) then Some(out + Print(v)) else None
    decreases v, 1
  {
    match v {
      case Null => return Some(out + "null");
      case Bool(b) => return Some(out + (if b then "true" else "false"));
      case Number(n) => return if InteroperableInt(n) then Some(out + Integer(n)) else None;
      case String(s) =>
        var quoted := WriteString(s, out);
        return Some(quoted);
      case Array(items) => text := WriteItems(v, out);
      case Object(members) => text := WriteMembers(v, out);
    }
  }

  lemma ArrayStarts(v: Value, out: string)
    requires v.Array?
    ensures out + Print(v) == (out + "[") + RestOfItems(v, 0)
  {
    hide RestOfItems;
  }

  lemma ItemStep(v: Value, i: nat, cur: string)
    requires v.Array? && i < |v.items|
    ensures cur + RestOfItems(v, i) == (cur + Comma(i) + Print(v.items[i])) + RestOfItems(v, i + 1)
  {
    hide Print, Comma;
  }

  method WriteItems(v: Value, out: string) returns (text: Option<string>)
    requires v.Array?
    ensures text == if Interoperable(v) then Some(out + Print(v)) else None
    decreases v, 0
  {
    hide Print, RestOfItems, Comma;
    var cur := out + "[";
    ArrayStarts(v, out);
    for i := 0 to |v.items|
      invariant forall j :: 0 <= j < i ==> Interoperable(v.items[j])
      invariant cur + RestOfItems(v, i) == out + Print(v)
    {
      ItemStep(v, i, cur);
      var item := WriteValue(v.items[i], cur + Comma(i));
      if item.None? {
        return None;
      }
      cur := item.value;
    }
    ItemsEnd(v);
    return Some(cur + "]");
  }

  lemma ObjectStarts(v: Value, out: string)
    requires v.Object?
    ensures out + Print(v) == (out + "{") + RestOfMembers(v, SortedKeys(v.members.Keys), 0)
  {
    hide RestOfMembers;
  }

  lemma MemberStep(v: Value, keys: seq<string>, i: nat, cur: string)
    requires v.Object? && i < |keys| && forall k :: k in keys ==> k in v.members
    ensures cur + RestOfMembers(v, keys, i) ==
            (cur + Comma(i) + Quoted(keys[i]) + ":" + Print(v.members[keys[i]])) + RestOfMembers(v, keys, i + 1)
  {
    hide Print, Comma, Quoted;
  }

  method WriteMembers(v: Value, out: string) returns (text: Option<string>)
    requires v.Object?
    ensures text == if Interoperable(v) then Some(out + Print(v)) else None
    decreases v, 0
  {
    hide Print, RestOfMembers, Comma, Quoted, KeyBefore;
    var keys := SortKeys(v.members.Keys);
    var cur := out + "{";
    ObjectStarts(v, out);
    for i := 0 to |keys|
      invariant forall j :: 0 <= j < i ==> Interoperable(v.members[keys[j]])
      invariant cur + RestOfMembers(v, keys, i) == out + Print(v)
    {
      MemberStep(v, keys, i, cur);
      var key := WriteString(keys[i], cur + Comma(i));
      var member := WriteValue(v.members[keys[i]], key + ":");
      if member.None? {
        return None;
      }
      cur := member.value;
    }
    MembersEnd(v, keys);
    forall k | k in v.members ensures Interoperable(v.members[k]) {
      assert k in keys;
    }
    return Some(cur + "}");
  }

  method Canonicalize(v: Value) returns (bytes: Option<seq<Octet>>)
    ensures bytes == if Interoperable(v) then Some(CanonicalBytes(v)) else None
  {
    var text := WriteValue(v, "");
    if text.None? {
      return None;
    }
    assert text.value == Print(v);
    return Some(Utf8(text.value));
  }

  /** The number stands somewhere in the value. */
  predicate Contains(v: Value, n: int) {
    match v
    case Number(m) => m == n
    case Array(items) => exists i :: 0 <= i < |items| && Contains(items[i], n)
    case Object(members) => exists k :: k in members && Contains(members[k], n)
    case _ => false
  }

  predicate InRange(n: int) {
    -9_007_199_254_740_991 <= n <= 9_007_199_254_740_991
  }

  /** A value is refused exactly for a number beyond 2^53 - 1 in magnitude, wherever it stands. */
  lemma {:induction false} InteroperableExactly(v: Value)
    ensures Interoperable(v) <==> forall n :: Contains(v, n) ==> InRange(n)
    decreases v
  {
    if Interoperable(v) {
      forall n | Contains(v, n) ensures InRange(n) {
        OnlyInRange(v, n);
      }
    } else {
      var n := OutOfRange(v);
    }
  }

  lemma {:induction false} OnlyInRange(v: Value, n: int)
    requires Interoperable(v) && Contains(v, n)
    ensures InRange(n)
    decreases v
  {
    match v {
      case Array(items) =>
        var i :| 0 <= i < |items| && Contains(items[i], n);
        OnlyInRange(items[i], n);
      case Object(members) =>
        var k :| k in members && Contains(members[k], n);
        OnlyInRange(members[k], n);
      case _ =>
    }
  }

  lemma {:induction false} OutOfRange(v: Value) returns (n: int)
    requires !Interoperable(v)
    ensures Contains(v, n) && !InRange(n)
    decreases v
  {
    match v {
      case Array(items) =>
        var i :| 0 <= i < |items| && !Interoperable(items[i]);
        n := OutOfRange(items[i]);
      case Object(members) =>
        var k :| k in members && !Interoperable(members[k]);
        n := OutOfRange(members[k]);
      case Number(m) => n := m;
    }
  }
}
