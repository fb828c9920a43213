/**
 The JSON texts of the watchdog's records and of the two messages that lead to an armed record, as
 serde_json writes them: objects in field order, without white space.
 */
module WatchdogTexts {
  import opened ByteConversions
  import opened Bytes
  import opened Wrappers
  import opened AuthorityLog
  import opened DecisionLog
  import opened WatchdogModel
  import opened WatchdogRuns
  import opened Decimals
  import opened Unicode
  import opened Jcs

  // ----- Objects in field order -----

  ghost function FieldsText(names: seq<string>, values: seq<Value>, i: nat): string
    requires |names| == |values| && i <= |names|
    decreases |names| - i
  {
    if i == |names| then ""
    else Comma(i) + Quoted(names[i]) + ":" + Print(values[i]) + FieldsText(names, values, i + 1)
  }

  lemma FieldsUnroll(names: seq<string>, values: seq<Value>, i: nat, s: string)
    requires |names| == |values| && i <= |names| && NoDigit(s)
    ensures i > 0 ==> NoDigit(FieldsText(names, values, i) + s)
    ensures i == |names| ==> FieldsText(names, values, i) + s == s
    ensures i < |names| ==> FieldsText(names, values, i) + s ==
                              (Comma(i) + Quoted(names[i]) + ":") + (Print(values[i]) + (FieldsText(names, values, i + 1) + s))
  {
    hide Print, Quoted;
    if i < |names| {
      var line := (Comma(i) + Quoted(names[i]) + ":") + (Print(values[i]) + (FieldsText(names, values, i + 1) + s));
      assert FieldsText(names, values, i) + s == line;
      assert i > 0 ==> line[0] == ',';
    }
  }

  /** Under the same names, equal texts have equal values, whatever follows them. */
  lemma {:induction false} FieldsDetermine(names: seq<string>, v: seq<Value>, w: seq<Value>, i: nat, s: string, t: string)
    requires |names| == |v| == |w| && i <= |names| && NoDigit(s) && NoDigit(t)
    requires FieldsText(names, v, i) + s == FieldsText(names, w, i) + t
    ensures v[i..] == w[i..] && s == t
    decreases |names| - i
  {
    hide FieldsText, Print, Quoted, Comma, NoDigit;
    FieldsUnroll(names, v, i, s);
    FieldsUnroll(names, w, i, t);
    if i < |names| {
      FieldsUnroll(names, v, i + 1, s);
      FieldsUnroll(names, w, i + 1, t);
      var a, b := FieldsText(names, v, i + 1) + s, FieldsText(names, w, i + 1) + t;
      SameRest(Comma(i) + Quoted(names[i]) + ":", Print(v[i]) + a, Print(w[i]) + b);
      PrintDetermines(v[i], w[i], a, b);
      FieldsDetermine(names, v, w, i + 1, s, t);
      assert v[i..] == [v[i]] + v[i + 1..] && w[i..] == [w[i]] + w[i + 1..];
    }
  }

  // ----- The record -----

  function KindName(kind: Kind): string {
    match kind
    case Armed => "Armed"
    case ProbationPassed => "ProbationPassed"
    case LeaseRenewed => "LeaseRenewed"
    case BeginCommit => "BeginCommit"
    case BeginRevert => "BeginRevert"
    case Committed => "Committed"
    case Reverted => "Reverted"
  }

  lemma KindNameDetermines(a: Kind, b: Kind)
    requires KindName(a) == KindName(b)
    ensures a == b
  {
    assert |KindName(a)| == |KindName(b)|;
    assert KindName(BeginCommit)[5] == 'C' && KindName(BeginRevert)[5] == 'R';
  }

  function TextOrNull(s: Option<string>): Value {
    if s.None? then Null else String(s.value)
  }

  function NumberOrNull(n: Option<int>): Value {
    if n.None? then Null else Number(n.value)
  }

  const RECORD_FIELDS: seq<string> :=
    ["sequence", "epoch", "kind", "host_id", "tx_id", "base", "lease_id", "worker_group_tag",
     "armed_at_secs", "armed_at_nanos", "deadline_secs", "deadline_nanos",
     "lease_expires_at_secs", "lease_expires_at_nanos", "renewed_at_secs", "renewed_at_nanos"]

  function RecordValues(r: AuthorityRecord): (values: seq<Value>)
    ensures |values| == |RECORD_FIELDS| == 16
  {
    [Number(r.sequence), Number(r.epoch), String(KindName(r.kind)),
     TextOrNull(r.hostId), TextOrNull(r.txId), TextOrNull(r.base), TextOrNull(r.leaseId), NumberOrNull(r.workerGroupTag),
     NumberOrNull(r.armedAt.secs), NumberOrNull(r.armedAt.nanos), NumberOrNull(r.deadline.secs), NumberOrNull(r.deadline.nanos),
     NumberOrNull(r.leaseExpiresAt.secs), NumberOrNull(r.leaseExpiresAt.nanos),
     NumberOrNull(r.renewedAt.secs), NumberOrNull(r.renewedAt.nanos)]
  }

  lemma RecordValuesDetermine(a: AuthorityRecord, b: AuthorityRecord)
    requires RecordValues(a) == RecordValues(b)
    ensures a == b
  {
    hide KindName, TextOrNull, NumberOrNull;
    var v, w := RecordValues(a), RecordValues(b);
    assert v[0] == w[0] && v[1] == w[1] && v[2] == w[2];
    KindNameDetermines(a.kind, b.kind);
    assert v[3] == w[3] && v[4] == w[4] && v[5] == w[5] && v[6] == w[6];
    TextDetermines(a.hostId, b.hostId);
    TextDetermines(a.txId, b.txId);
    TextDetermines(a.base, b.base);
    TextDetermines(a.leaseId, b.leaseId);
    assert v[7] == w[7];
    NumberDetermines(a.workerGroupTag, b.workerGroupTag);
    assert v[8] == w[8] && v[9] == w[9] && v[10] == w[10] && v[11] == w[11];
    StampDetermines(a.armedAt, b.armedAt);
    StampDetermines(a.deadline, b.deadline);
    assert v[12] == w[12] && v[13] == w[13] && v[14] == w[14] && v[15] == w[15];
    StampDetermines(a.leaseExpiresAt, b.leaseExpiresAt);
    StampDetermines(a.renewedAt, b.renewedAt);
  }

  lemma TextDetermines(a: Option<string>, b: Option<string>)
    requires TextOrNull(a) == TextOrNull(b)
    ensures a == b
  {
  }

  lemma NumberDetermines(a: Option<int>, b: Option<int>)
    requires NumberOrNull(a) == NumberOrNull(b)
    ensures a == b
  {
  }

  lemma StampDetermines(a: Stamp, b: Stamp)
    requires NumberOrNull(a.secs) == NumberOrNull(b.secs) && NumberOrNull(a.nanos) == NumberOrNull(b.nanos)
    ensures a == b
  {
  }

  ghost function RecordText(r: AuthorityRecord): string {
    "{" + FieldsText(RECORD_FIELDS, RecordValues(r), 0) + "}"
  }

  function AsBytes(octets: seq<Octet>): (bytes: seq<Byte>)
    ensures |bytes| == |octets|
  {
    seq(|octets|, i requires 0 <= i < |octets| => octets[i] as Byte)
  }

  lemma AsBytesDetermine(a: seq<Octet>, b: seq<Octet>)
    requires AsBytes(a) == AsBytes(b)
    ensures a == b
  {
    assert |a| == |b|;
    forall i | 0 <= i < |a| ensures a[i] == b[i] {
      assert AsBytes(a)[i] == AsBytes(b)[i];
      ByteOfInt(a[i]);
      ByteOfInt(b[i]);
    }
  }

  ghost function RecordBytes(r: AuthorityRecord): seq<Byte> {
    AsBytes(Utf8(RecordText(r)))
  }

  /** The bytes of a record determine it. */
  lemma RecordBytesDetermine(a: AuthorityRecord, b: AuthorityRecord)
    requires RecordBytes(a) == RecordBytes(b)
    ensures a == b
  {
    hide FieldsText, AsBytes, Utf8, RecordValues;
    AsBytesDetermine(Utf8(RecordText(a)), Utf8(RecordText(b)));
    Utf8Determines(RecordText(a), RecordText(b));
    var v, w := RecordValues(a), RecordValues(b);
    assert RecordText(a) == "{" + (FieldsText(RECORD_FIELDS, v, 0) + "}");
    assert RecordText(b) == "{" + (FieldsText(RECORD_FIELDS, w, 0) + "}");
    SameRest("{", FieldsText(RECORD_FIELDS, v, 0) + "}", FieldsText(RECORD_FIELDS, w, 0) + "}");
    FieldsDetermine(RECORD_FIELDS, v, w, 0, "}", "}");
    assert v[0..] == v && w[0..] == w;
    RecordValuesDetermine(a, b);
  }

  /** The record a text was written for, if any. */
  ghost function ReadRecord(bytes: seq<Byte>): Option<AuthorityRecord> {
    if exists r :: RecordBytes(r) == bytes then
      var r :| RecordBytes(r) == bytes;
      Some(r)
    else None
  }

  ghost const JSON: Codec := Codec(r => RecordBytes(r), bytes => ReadRecord(bytes))

  lemma JsonIsFaithful()
    ensures JSON.Faithful()
  {
    hide RecordBytes;
    forall r ensures JSON.decode(JSON.encode(r)) == Some(r) {
      assert RecordBytes(r) == JSON.encode(r);
      var back :| RecordBytes(back) == JSON.encode(r) && ReadRecord(JSON.encode(r)) == Some(back);
      RecordBytesDetermine(back, r);
    }
  }

  // ----- The messages -----

  const BIND_FIELDS: seq<string> := ["host_id", "tx_id", "epoch", "lease_id", "worker_group_tag", "client_nonce"]

  function BindValues(b: SessionBind): (values: seq<Value>)
    ensures |values| == |BIND_FIELDS| == 6
  {
    [String(b.hostId), String(b.txId), Number(b.epoch), String(b.leaseId), Number(b.workerGroupTag), String(b.clientNonce)]
  }

  /** The payload of the frame that binds a session. */
  ghost function BindBytes(b: SessionBind): seq<Byte> {
    AsBytes(Utf8("{\"version\":1,\"payload\":{" + FieldsText(BIND_FIELDS, BindValues(b), 0) + "}}"))
  }

  const ENVELOPE_FIELDS: seq<string> := ["version", "capability", "counter", "request_id", "host_id", "tx_id", "epoch"]

  function EnvelopeValues(e: RequestEnvelope): (values: seq<Value>)
    ensures |values| == |ENVELOPE_FIELDS| == 7
  {
    [Number(1), Numbers(e.capability), Number(e.counter), String(e.requestId), String(e.hostId), String(e.txId), Number(e.epoch)]
  }

  function Numbers(bytes: seq<Byte>): Value {
    Array(seq(|bytes|, i requires 0 <= i < |bytes| => Number(bytes[i] as int)))
  }

  function Strings(texts: seq<string>): Value {
    Array(seq(|texts|, i requires 0 <= i < |texts| => String(texts[i])))
  }

  const ARM_FIELDS: seq<string> :=
    ["kind", "request_id", "host_id", "tx_id", "epoch", "base", "deadline_secs", "deadline_nanos",
     "mandatory_invariants", "additive_manifest_checks"]

  function ArmValues(req: LocalRequest): (values: seq<Value>)
    requires req.Arm?
    ensures |values| == |ARM_FIELDS| == 10
  {
    [String("arm"), String(req.requestId), String(req.hostId), String(req.txId), Number(req.epoch), String(req.base),
     Number(req.deadlineSecs), Number(req.deadlineNanos), Strings(req.mandatoryInvariants), Strings(req.additiveManifestChecks)]
  }

  /** The payload of the frame that asks to arm. */
  ghost function ArmBytes(e: RequestEnvelope): seq<Byte>
    requires e.request.Arm?
  {
    AsBytes(Utf8("{" + FieldsText(ENVELOPE_FIELDS, EnvelopeValues(e), 0)
                 + ",\"request\":{" + FieldsText(ARM_FIELDS, ArmValues(e.request), 0) + "}}"))
  }

  // ----- Sizes -----

  lemma {:induction false} Utf8Size(s: string)
    ensures |s| <= |Utf8(s)| <= 4 * |s|
  {
    if s != [] {
      Utf8Size(s[1..]);
    }
  }

  /** Characters of one byte that need no escape. */
  predicate Plain(s: string) {
    forall i :: 0 <= i < |s| ==> 0x20 <= Code(s[i]) < 0x80 && s[i] != '"' && s[i] != '\\'
  }

  lemma {:induction false} PlainSize(s: string)
    requires Plain(s)
    ensures |Utf8(RestOfString(s))| == |s| + 1
  {
    if s == [] {
      assert Utf8(RestOfString(s)) == Octets('"') + Utf8([]) by {
        assert RestOfString(s)[1..] == [];
      }
    } else {
      PlainSize(s[1..]);
      var text := [s[0]] + RestOfString(s[1..]);
      assert RestOfString(s) == text && text[1..] == RestOfString(s[1..]);
    }
  }

  lemma QuotedPlainSize(s: string)
    requires Plain(s)
    ensures |Quoted(s)| >= |s| && |Utf8(Quoted(s))| == |s| + 2
  {
    hide RestOfString;
    PlainSize(s);
    QuotedSize(s);
    Utf8Appends("\"", RestOfString(s));
    var quote := "\"";
    assert quote[1..] == [] && Utf8(quote) == Octets('"');
  }

  lemma {:induction false} QuotedSize(s: string)
    ensures |s| < |RestOfString(s)| <= 6 * |s| + 1
  {
    if s != [] {
      QuotedSize(s[1..]);
      assert |EscapeChar(s[0])| <= 6;
    }
  }

  /** The bytes of the fields from `i` on, when one of them may be `extra` longer than the others. */
  lemma {:induction false} FieldsSize(names: seq<string>, values: seq<Value>, i: nat, big: nat, most: nat, extra: nat)
    requires |names| == |values| && i <= |names|
    requires forall k :: i <= k < |names| ==> |names[k]| <= 24
    requires forall k :: i <= k < |names| ==> |Utf8(Print(values[k]))| + 600 <= most + if k == big then extra else 0
    ensures |Utf8(FieldsText(names, values, i))| <= (|names| - i) * most + if i <= big then extra else 0
    decreases |names| - i
  {
    hide Print, Quoted, Utf8, Comma;
    if i < |names| {
      Times(|names| - i, most);
      FieldsSize(names, values, i + 1, big, most, extra);
      var head, value, rest := Comma(i) + Quoted(names[i]) + ":", Print(values[i]), FieldsText(names, values, i + 1);
      assert FieldsText(names, values, i) == head + (value + rest);
      Utf8Appends(head, value + rest);
      Utf8Appends(value, rest);
      HeadSize(i, names[i]);
    } else {
      Utf8Size("");
    }
  }

  lemma Times(n: nat, most: nat)
    requires n > 0
    ensures n * most == (n - 1) * most + most
  {
  }

  lemma HeadSize(i: nat, name: string)
    requires |name| <= 24
    ensures |Utf8(Comma(i) + Quoted(name) + ":")| <= 600
  {
    hide RestOfString;
    QuotedSize(name);
    Utf8Size(Comma(i) + Quoted(name) + ":");
  }

  /** The text of the fields is at least as long as the values of two of them. */
  lemma {:induction false} FieldsAtLeast(names: seq<string>, values: seq<Value>, i: nat, j: nat, k: nat)
    requires |names| == |values| && i <= j < k < |names|
    ensures |FieldsText(names, values, i)| >= |Print(values[j])| + |Print(values[k])|
    decreases |names| - i
  {
    hide Print, Quoted;
    if i < j {
      FieldsAtLeast(names, values, i + 1, j, k);
    } else {
      OneFieldAtLeast(names, values, i + 1, k);
    }
  }

  lemma {:induction false} OneFieldAtLeast(names: seq<string>, values: seq<Value>, i: nat, k: nat)
    requires |names| == |values| && i <= k < |names|
    ensures |FieldsText(names, values, i)| >= |Print(values[k])|
    decreases |names| - i
  {
    hide Print, Quoted;
    if i < k {
      OneFieldAtLeast(names, values, i + 1, k);
    }
  }

  lemma NumberSize(n: nat)
    requires n < 1000
    ensures |Print(Number(n))| <= 3 && |Utf8(Print(Number(n)))| <= 12
  {
    assert |Decimal(n / 10)| <= 2 by {
      assert |Decimal(n / 10 / 10)| == 1;
    }
    Utf8Size(Print(Number(n)));
  }

  lemma StringSize(s: string)
    requires |s| <= 20
    ensures |Print(String(s))| <= 122 && |Utf8(Print(String(s)))| <= 488
  {
    hide RestOfString;
    QuotedSize(s);
    Utf8Size(Print(String(s)));
  }

  lemma {:induction false} ItemsSize(v: Value, i: nat, most: nat)
    requires v.Array? && i <= |v.items| && forall k :: 0 <= k < |v.items| ==> |Print(v.items[k])| <= most
    ensures |RestOfItems(v, i)| <= (|v.items| - i) * (most + 1) + 1
    decreases |v.items| - i
  {
    hide Print;
    if i < |v.items| {
      ItemsSize(v, i + 1, most);
      Times(|v.items| - i, most + 1);
    }
  }

  lemma ArraySize(v: Value, most: nat)
    requires v.Array? && (forall k :: 0 <= k < |v.items| ==> |Print(v.items[k])| <= most)
    ensures |Utf8(Print(v))| <= 4 * (|v.items| * (most + 1) + 2)
  {
    hide RestOfItems, Print;
    ItemsSize(v, 0, most);
    PrintArray(v);
    Utf8Size(Print(v));
  }

  lemma PrintArray(v: Value)
    requires v.Array?
    ensures Print(v) == "[" + RestOfItems(v, 0)
  {
    hide RestOfItems;
  }
}
