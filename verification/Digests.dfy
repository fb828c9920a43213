/** What operation and manifest digests are taken of: a domain and canonical bytes. */
module Digests {
  import opened Wrappers
  import opened Decimals
  import opened Unicode
  import opened Jcs

  const PROTOCOL_VERSION_V1: nat := 1
  const PROTOCOL_VERSION_V2: nat := 2

  /** The digest hash over byte strings, left abstract. */
  type Hash = seq<Octet> -> seq<Octet>

  const OPERATION_DOMAIN_V1 := "agentbed.operation.v1\0"
  const OPERATION_DOMAIN_V2 := "agentbed.operation.v2\0"
  const MANIFEST_DOMAIN := "agentbed.manifest.v1\0"

  datatype DigestError = NonInteroperableNumber | Format

  function OperationDomain(protocolVersion: nat): Option<string> {
    if protocolVersion == PROTOCOL_VERSION_V1 then Some(OPERATION_DOMAIN_V1)
    else if protocolVersion == PROTOCOL_VERSION_V2 then Some(OPERATION_DOMAIN_V2)
    else None
  }

  function OperationInput(operation: string, operationVersion: nat, arguments: Value): Value {
    Object(map["operation" := String(operation), "operation_version" := Number(operationVersion), "arguments" := arguments])
  }

  ghost function Preimage(domain: string, v: Value): seq<Octet> {
    Utf8(domain) + CanonicalBytes(v)
  }

  ghost function OperationPreimage(protocolVersion: nat, operation: string, operationVersion: nat, arguments: Value): seq<Octet>
    requires OperationDomain(protocolVersion).Some?
  {
    Preimage(OperationDomain(protocolVersion).value, OperationInput(operation, operationVersion, arguments))
  }

  datatype OperationDigest = OperationDigest(canonicalBytes: seq<Octet>, digest: seq<Octet>)

  /** The digest of an operation, or why there is none. */
  method DigestOf(hash: Hash, protocolVersion: nat, operation: string, operationVersion: nat, arguments: Value)
    returns (r: Result<OperationDigest, DigestError>)
    requires operationVersion < 0x1_0000_0000
    ensures OperationDomain(protocolVersion).None? ==> r == Err(Format)
    ensures OperationDomain(protocolVersion).Some? && !Interoperable(arguments) ==> r == Err(NonInteroperableNumber)
    ensures OperationDomain(protocolVersion).Some? && Interoperable(arguments) ==>
              r == Ok(OperationDigest(CanonicalBytes(OperationInput(operation, operationVersion, arguments)),
                                      hash(OperationPreimage(protocolVersion, operation, operationVersion, arguments))))
  {
    hide CanonicalBytes, Utf8;
    var domain := OperationDomain(protocolVersion);
    if domain.None? {
      return Err(Format);
    }
    var input := OperationInput(operation, operationVersion, arguments);
    InputInteroperable(operation, operationVersion, arguments);
    var bytes := Canonicalize(input);
    if bytes.None? {
      return Err(NonInteroperableNumber);
    }
    return Ok(OperationDigest(bytes.value, hash(Utf8(domain.value) + bytes.value)));
  }

  method ManifestDigest(hash: Hash, manifest: Value) returns (r: Result<seq<Octet>, DigestError>)
    ensures r == if Interoperable(manifest) then Ok(hash(Preimage(MANIFEST_DOMAIN, manifest))) else Err(NonInteroperableNumber)
  {
    hide CanonicalBytes, Utf8;
    var bytes := Canonicalize(manifest);
    if bytes.None? {
      return Err(NonInteroperableNumber);
    }
    return Ok(hash(Utf8(MANIFEST_DOMAIN) + bytes.value));
  }

  lemma InputInteroperable(operation: string, operationVersion: nat, arguments: Value)
    requires operationVersion < 0x1_0000_0000
    ensures Interoperable(OperationInput(operation, operationVersion, arguments)) <==> Interoperable(arguments)
  {
    var input := OperationInput(operation, operationVersion, arguments);
    assert input.members["arguments"] == arguments;
    assert input.members["operation"] == String(operation);
    assert input.members["operation_version"] == Number(operationVersion);
  }

  /** No domain is another's beginning, so equal preimages have equal domains and equal values. */
  lemma PreimageDetermines(d: string, e: string, v: Value, w: Value)
    requires d in {OPERATION_DOMAIN_V1, OPERATION_DOMAIN_V2, MANIFEST_DOMAIN}
    requires e in {OPERATION_DOMAIN_V1, OPERATION_DOMAIN_V2, MANIFEST_DOMAIN}
    requires Preimage(d, v) == Preimage(e, w)
    ensures d == e && v == w
  {
    hide Utf8, Print;
    Utf8Appends(d, Print(v));
    Utf8Appends(e, Print(w));
    Utf8Determines(d + Print(v), e + Print(w));
    DomainsDiffer(d, e, Print(v), Print(w));
    SameRest(d, Print(v), Print(w));
    CanonicalBytesDetermine(v, w);
  }

  lemma DomainsDiffer(d: string, e: string, s: string, t: string)
    requires d in {OPERATION_DOMAIN_V1, OPERATION_DOMAIN_V2, MANIFEST_DOMAIN}
    requires e in {OPERATION_DOMAIN_V1, OPERATION_DOMAIN_V2, MANIFEST_DOMAIN}
    requires d + s == e + t
    ensures d == e
  {
    assert OPERATION_DOMAIN_V1[9] == 'o' && OPERATION_DOMAIN_V2[9] == 'o' && MANIFEST_DOMAIN[9] == 'm';
    assert OPERATION_DOMAIN_V1[20] == '1' && OPERATION_DOMAIN_V2[20] == '2';
    var line := d + s;
    assert line[9] == d[9] && line[9] == e[9];
    if d != MANIFEST_DOMAIN {
      assert line[20] == d[20] && line[20] == e[20];
    }
  }

  /** Operation preimages are equal only for the same protocol, operation, version and arguments. */
  lemma OperationPreimageDetermines(
    p: nat, operation: string, version: nat, arguments: Value, p': nat, operation': string, version': nat, arguments': Value)
    requires OperationDomain(p).Some? && OperationDomain(p').Some?
    requires OperationPreimage(p, operation, version, arguments) == OperationPreimage(p', operation', version', arguments')
    ensures p == p' && operation == operation' && version == version' && arguments == arguments'
  {
    hide Preimage;
    var v, w := OperationInput(operation, version, arguments), OperationInput(operation', version', arguments');
    PreimageDetermines(OperationDomain(p).value, OperationDomain(p').value, v, w);
    assert OPERATION_DOMAIN_V1[20] == '1' && OPERATION_DOMAIN_V2[20] == '2';
    assert v.members["operation"] == w.members["operation"];
    assert v.members["operation_version"] == w.members["operation_version"];
    assert v.members["arguments"] == w.members["arguments"];
  }

  /** No operation, of any protocol version, shares its preimage with a manifest. */
  lemma OperationIsNoManifest(p: nat, operation: string, version: nat, arguments: Value, manifest: Value)
    requires OperationDomain(p).Some?
    ensures OperationPreimage(p, operation, version, arguments) != Preimage(MANIFEST_DOMAIN, manifest)
  {
    hide Preimage;
    assert OPERATION_DOMAIN_V1[9] == 'o' && OPERATION_DOMAIN_V2[9] == 'o' && MANIFEST_DOMAIN[9] == 'm';
    if OperationPreimage(p, operation, version, arguments) == Preimage(MANIFEST_DOMAIN, manifest) {
      PreimageDetermines(OperationDomain(p).value, MANIFEST_DOMAIN, OperationInput(operation, version, arguments), manifest);
    }
  }

  // ----- The preimages written out -----

  lemma ThreeKeys(a: string, b: string, c: string)
    requires KeyBefore(a, b) && KeyBefore(b, c) && KeyBefore(a, c)
    ensures SortedKeys({a, b, c}) == [a, b, c]
  {
    hide KeyBefore;
    assert SortedListing([a, b, c], {a, b, c});
    SortedListingUnique(SortedKeys({a, b, c}), [a, b, c], {a, b, c});
  }

  lemma InputKeys()
    ensures SortedKeys({"arguments", "operation", "operation_version"}) == ["arguments", "operation", "operation_version"]
  {
    hide KeyBefore;
    FirstLetterDecides("arguments", "operation");
    FirstLetterDecides("arguments", "operation_version");
    LongerIsLater("operation", "_version");
    assert "operation" + "_version" == "operation_version";
    ThreeKeys("arguments", "operation", "operation_version");
  }

  lemma FirstLetterDecides(a: string, b: string)
    requires a != [] && b != [] && Code(a[0]) < Code(b[0]) < 0xD800
    ensures KeyBefore(a, b)
  {
    assert Utf16(a)[0] == Code(a[0]) && Utf16(b)[0] == Code(b[0]);
  }

  lemma {:induction false} LongerIsLater(a: string, tail: string)
    requires tail != []
    ensures KeyBefore(a, a + tail)
  {
    if a == [] {
      assert a + tail == tail && Utf16(tail) != [];
    } else {
      LongerIsLater(a[1..], tail);
      assert (a + tail)[1..] == a[1..] + tail;
      SameHead(Units(a[0]), Utf16(a[1..]), Utf16(a[1..] + tail));
    }
  }

  lemma SameHead(head: seq<Unit>, a: seq<Unit>, b: seq<Unit>)
    requires UnitsBefore(a, b) && 1 <= |head| <= 2
    ensures UnitsBefore(head + a, head + b)
  {
    assert (head + a)[1..] == head[1..] + a && (head + b)[1..] == head[1..] + b;
    if |head| == 2 {
      assert (head[1..] + a)[1..] == a && (head[1..] + b)[1..] == b;
    } else {
      assert head[1..] + a == a && head[1..] + b == b;
    }
  }

  function InQuotes(s: string): string {
    "\"" + s + "\""
  }

  /** An operation's canonical input is this text, members in this order. */
  lemma InputText(operation: string, version: nat, arguments: Value)
    ensures Print(OperationInput(operation, version, arguments)) ==
            "{" + (InQuotes("arguments") + ":" + Print(arguments) +
                   ("," + InQuotes("operation") + ":" + Quoted(operation) +
                    ("," + InQuotes("operation_version") + ":" + Integer(version) + "}")))
  {
    hide Quoted, Integer, RestOfMembers, KeyBefore;
    var v, keys := OperationInput(operation, version, arguments), ["arguments", "operation", "operation_version"];
    InputKeys();
    assert v.members.Keys == {"arguments", "operation", "operation_version"};
    assert Print(v) == "{" + RestOfMembers(v, keys, 0);
    ThreeMembers(v, keys);
    QuotedName("arguments");
    QuotedName("operation");
    QuotedName("operation_version");
    InputValues(operation, version, arguments);
  }

  lemma InputValues(operation: string, version: nat, arguments: Value)
    ensures var m := OperationInput(operation, version, arguments).members;
      && Print(m["arguments"]) == Print(arguments)
      && Print(m["operation"]) == Quoted(operation) && Print(m["operation_version"]) == Integer(version)
  {
    hide Quoted, Integer;
  }

  predicate PlainName(s: string) {
    forall i :: 0 <= i < |s| ==> 'a' <= s[i] <= 'z' || s[i] == '_'
  }

  lemma {:induction false} PlainRest(s: string)
    requires PlainName(s)
    ensures RestOfString(s) == s + "\""
  {
    hide EscapeChar;
    if s != [] {
      PlainChar(s[0]);
      PlainRest(s[1..]);
      assert s == [s[0]] + s[1..];
      assert RestOfString(s) == [s[0]] + (s[1..] + "\"");
    }
  }

  lemma PlainChar(c: char)
    requires 'a' <= c <= 'z' || c == '_'
    ensures EscapeChar(c) == [c]
  {
  }

  lemma QuotedName(s: string)
    requires PlainName(s)
    ensures Quoted(s) == InQuotes(s)
  {
    hide RestOfString;
    PlainRest(s);
  }

  lemma ThreeMembers(v: Value, keys: seq<string>)
    requires v.Object? && |keys| == 3 && forall k :: k in keys ==> k in v.members
    ensures RestOfMembers(v, keys, 0) ==
            Quoted(keys[0]) + ":" + Print(v.members[keys[0]]) +
            ("," + Quoted(keys[1]) + ":" + Print(v.members[keys[1]]) +
             ("," + Quoted(keys[2]) + ":" + Print(v.members[keys[2]]) + "}"))
  {
    hide Print, Quoted;
    assert RestOfMembers(v, keys, 3) == "}";
    assert RestOfMembers(v, keys, 2) == "," + Quoted(keys[2]) + ":" + Print(v.members[keys[2]]) + "}";
    assert RestOfMembers(v, keys, 1) == "," + Quoted(keys[1]) + ":" + Print(v.members[keys[1]]) + RestOfMembers(v, keys, 2);
    assert Comma(0) == "";
  }

  /** Protocol 1 hashes under the first operation domain, protocol 2 under the second, no other at all. */
  lemma DomainsExactly(protocolVersion: nat)
    ensures OperationDomain(protocolVersion) ==
            if protocolVersion == 1 then Some("agentbed.operation.v1\0")
            else if protocolVersion == 2 then Some("agentbed.operation.v2\0")
            else None
    ensures MANIFEST_DOMAIN == "agentbed.manifest.v1\0"
  {
  }

  /** What is hashed for an operation: the protocol's domain, then the canonical input as text. */
  lemma PreimageExactly(protocolVersion: nat, operation: string, version: nat, arguments: Value)
    requires OperationDomain(protocolVersion).Some?
    ensures OperationPreimage(protocolVersion, operation, version, arguments) ==
            Utf8((if protocolVersion == 1 then "agentbed.operation.v1\0" else "agentbed.operation.v2\0") +
                 ("{" + (InQuotes("arguments") + ":" + Print(arguments) +
                         ("," + InQuotes("operation") + ":" + Quoted(operation) +
                          ("," + InQuotes("operation_version") + ":" + Integer(version) + "}")))))
  {
    hide Utf8, Print, Quoted, Integer;
    var v := OperationInput(operation, version, arguments);
    DomainsExactly(protocolVersion);
    InputText(operation, version, arguments);
    Utf8Appends(OperationDomain(protocolVersion).value, Print(v));
  }

  /** Every preimage is one text: the domain, then the canonical text of the value. */
  lemma PreimageText(domain: string, v: Value)
    ensures Preimage(domain, v) == Utf8(domain + Print(v))
  {
    hide Utf8, Print;
    Utf8Appends(domain, Print(v));
  }
}
