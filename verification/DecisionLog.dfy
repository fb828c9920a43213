/**
 The decision log as bytes: CRC-framed records appended one after another, and the strict
 reader that accepts whole logs only.
 */
module DecisionLog {
  import opened Bytes
  import opened Wrappers
  import opened AuthorityLog
  import Crc32

  const HEADER_BYTES: nat := 8
  const MAX_RECORD_BYTES: nat := 65536

  /** The record text coding (a library serializer), taken as a pair of functions. */
  datatype Codec = Codec(encode: AuthorityRecord -> seq<Byte>, decode: seq<Byte> -> Option<AuthorityRecord>) {
    ghost predicate Faithful() {
      forall r :: decode(encode(r)) == Some(r)
    }

    /** The writer's limit: the payload length fits the 32-bit header. */
    predicate Framable(r: AuthorityRecord) {
      |encode(r)| < U32_LIMIT
    }

    /** The reader's limit. */
    predicate Fits(r: AuthorityRecord) {
      |encode(r)| <= MAX_RECORD_BYTES
    }
  }

  /** One frame: length, checksum, payload. */
  function FramePayload(payload: seq<Byte>): (frame: seq<Byte>)
    requires |payload| < U32_LIMIT
    ensures |frame| == HEADER_BYTES + |payload|
  {
    LengthToBe(|payload|) + WordToBe(Crc32.Checksum(payload)) + payload
  }

  function Frame(codec: Codec, r: AuthorityRecord): seq<Byte>
    requires codec.Framable(r)
  {
    FramePayload(codec.encode(r))
  }

  ghost predicate AllFramable(codec: Codec, records: seq<AuthorityRecord>) {
    forall i :: 0 <= i < |records| ==> codec.Framable(records[i])
  }

  ghost predicate AllFit(codec: Codec, records: seq<AuthorityRecord>) {
    forall i :: 0 <= i < |records| ==> codec.Fits(records[i])
  }

  ghost function FrameAll(codec: Codec, records: seq<AuthorityRecord>): seq<Byte>
    requires AllFramable(codec, records)
  {
    if records == [] then [] else Frame(codec, records[0]) + FrameAll(codec, records[1..])
  }

  // ----- The reader -----

  /** The payload of the first frame, if the header, the length and the checksum are sound. */
  function FirstPayload(bytes: seq<Byte>): (payload: Option<seq<Byte>>)
    ensures payload.Some? ==> |payload.value| <= MAX_RECORD_BYTES && HEADER_BYTES + |payload.value| <= |bytes|
  {
    if |bytes| < HEADER_BYTES then None
    else
      var length := LengthFromBe(bytes[..4]);
      if length > MAX_RECORD_BYTES || |bytes| < HEADER_BYTES + length then None
      else
        var payload := bytes[HEADER_BYTES..HEADER_BYTES + length];
        if Crc32.Checksum(payload) == WordFromBe(bytes[4..8]) then Some(payload) else None
  }

  /** What the reader demands of a record, given how many records precede it and their last epoch. */
  predicate InOrder(r: AuthorityRecord, count: nat, lastEpoch: U64) {
    SchemaValid(r) && r.sequence == count + 1 && lastEpoch <= r.epoch
  }

  /** The reader's specification: the remaining records, or a rejection. */
  function ReadFrom(codec: Codec, bytes: seq<Byte>, count: nat, lastEpoch: U64): Option<seq<AuthorityRecord>>
    decreases |bytes|
  {
    if bytes == [] then Some([])
    else match FirstPayload(bytes)
      case None => None
      case Some(payload) =>
        match codec.decode(payload)
        case None => None
        case Some(r) =>
          if !InOrder(r, count, lastEpoch) then None
          else match ReadFrom(codec, bytes[HEADER_BYTES + |payload|..], count + 1, r.epoch)
            case None => None
            case Some(rest) => Some([r] + rest)
  }

  method NextPayload(remaining: seq<Byte>) returns (payload: Option<seq<Byte>>)
    ensures payload == FirstPayload(remaining)
  {
    if |remaining| < HEADER_BYTES {
      return None;
    }
    var length := LengthFromBe(remaining[..4]);
    if length > MAX_RECORD_BYTES || |remaining| < HEADER_BYTES + length {
      return None;
    }
    var body := remaining[HEADER_BYTES..HEADER_BYTES + length];
    var crc := Crc32.Compute(body);
    return if crc != WordFromBe(remaining[4..8]) then None else Some(body);
  }

  ghost function Prepend(records: seq<AuthorityRecord>, rest: Option<seq<AuthorityRecord>>): Option<seq<AuthorityRecord>> {
    if rest.None? then None else Some(records + rest.value)
  }

  /** `DecisionLogReader::open` on the bytes of the file. */
  method Open(codec: Codec, bytes: seq<Byte>) returns (result: Option<seq<AuthorityRecord>>)
    ensures result == ReadFrom(codec, bytes, 0, 0)
  {
    hide FirstPayload, SchemaValid;
    var records: seq<AuthorityRecord> := [];
    var lastEpoch: U64 := 0;
    var offset := 0;
    ghost var whole := ReadFrom(codec, bytes, 0, 0);
    assert bytes[0..] == bytes && (whole.Some? ==> [] + whole.value == whole.value);
    while offset < |bytes|
      invariant offset <= |bytes|
      invariant whole == Prepend(records, ReadFrom(codec, bytes[offset..], |records|, lastEpoch))
    {
      var payload := NextPayload(bytes[offset..]);
      if payload.None? {
        return None;
      }
      var decoded := codec.decode(payload.value);
      if decoded.None? || !SchemaValid(decoded.value)
         || decoded.value.sequence != |records| + 1 || decoded.value.epoch < lastEpoch {
        return None;
      }
      var next := offset + HEADER_BYTES + |payload.value|;
      assert bytes[offset..][HEADER_BYTES + |payload.value|..] == bytes[next..];
      ghost var rest := ReadFrom(codec, bytes[next..], |records| + 1, decoded.value.epoch);
      assert rest.Some? ==> (records + [decoded.value]) + rest.value == records + ([decoded.value] + rest.value);
      lastEpoch := decoded.value.epoch;
      records := records + [decoded.value];
      offset := next;
    }
    assert bytes[offset..] == [] && records + [] == records;
    result := Some(records);
  }

  // ----- Reading back what was written -----

  /** A record list as the reader wants it, continuing after `count` records. */
  ghost predicate Consecutive(records: seq<AuthorityRecord>, count: nat, lastEpoch: U64) {
    forall i :: 0 <= i < |records| ==> InOrder(records[i], count + i, EpochBefore(records, i, lastEpoch))
  }

  function EpochBefore(records: seq<AuthorityRecord>, i: nat, lastEpoch: U64): U64
    requires i <= |records|
  {
    if i == 0 then lastEpoch else records[i - 1].epoch
  }

  lemma ConsecutiveCons(records: seq<AuthorityRecord>, count: nat, lastEpoch: U64)
    requires records != []
    ensures Consecutive(records, count, lastEpoch) <==>
            InOrder(records[0], count, lastEpoch) && Consecutive(records[1..], count + 1, records[0].epoch)
  {
    var tail := records[1..];
    if Consecutive(records, count, lastEpoch) {
      forall i | 0 <= i < |tail|
        ensures InOrder(tail[i], count + 1 + i, EpochBefore(tail, i, records[0].epoch))
      {
        assert tail[i] == records[i + 1];
      }
    }
    if InOrder(records[0], count, lastEpoch) && Consecutive(tail, count + 1, records[0].epoch) {
      forall i | 0 <= i < |records|
        ensures InOrder(records[i], count + i, EpochBefore(records, i, lastEpoch))
      {
        if i > 0 {
          assert tail[i - 1] == records[i];
        }
      }
    }
  }

  lemma FirstPayloadOfFrame(payload: seq<Byte>, rest: seq<Byte>)
    requires |payload| < U32_LIMIT
    ensures FirstPayload(FramePayload(payload) + rest) ==
            if |payload| <= MAX_RECORD_BYTES then Some(payload) else None
  {
    var bytes := FramePayload(payload) + rest;
    assert bytes[..4] == LengthToBe(|payload|);
    assert bytes[4..8] == WordToBe(Crc32.Checksum(payload));
    LengthRoundTrip(|payload|);
    WordRoundTrip(Crc32.Checksum(payload));
    assert bytes[HEADER_BYTES..HEADER_BYTES + |payload|] == payload;
  }

  lemma TruncatedFrameRefused(payload: seq<Byte>, k: nat)
    requires |payload| < U32_LIMIT
    requires k < HEADER_BYTES + |payload|
    ensures FirstPayload(FramePayload(payload)[..k]) == None
  {
    var bytes := FramePayload(payload)[..k];
    if k >= HEADER_BYTES {
      assert bytes[..4] == LengthToBe(|payload|);
      LengthRoundTrip(|payload|);
    }
  }

  /**
   What the reader makes of complete frames followed by bytes that hold no complete frame: the
   records when they are consecutive, within the size limit and followed by nothing, and
   otherwise a rejection.
   */
  lemma {:induction false} ReadExactly(codec: Codec, records: seq<AuthorityRecord>, tail: seq<Byte>, count: nat, lastEpoch: U64)
    requires codec.Faithful()
    requires AllFramable(codec, records)
    requires FirstPayload(tail) == None
    ensures ReadFrom(codec, FrameAll(codec, records) + tail, count, lastEpoch) ==
            if AllFit(codec, records) && Consecutive(records, count, lastEpoch) && tail == [] then Some(records) else None
    decreases |records|
  {
    hide FirstPayload, FramePayload, SchemaValid;
    if records == [] {
      assert FrameAll(codec, records) + tail == tail;
    } else {
      var payload, after := codec.encode(records[0]), FrameAll(codec, records[1..]) + tail;
      var all := Frame(codec, records[0]) + after;
      assert FrameAll(codec, records) + tail == all;
      FirstPayloadOfFrame(payload, after);
      if codec.Fits(records[0]) && InOrder(records[0], count, lastEpoch) {
        assert all[HEADER_BYTES + |payload|..] == after;
        ReadExactly(codec, records[1..], tail, count + 1, records[0].epoch);
        ConsecutiveCons(records, count, lastEpoch);
        assert AllFit(codec, records) <==> AllFit(codec, records[1..]);
        assert records == [records[0]] + records[1..];
      } else {
        assert codec.Fits(records[0]) ==> !InOrder(records[0], count + 0, EpochBefore(records, 0, lastEpoch));
      }
    }
  }

  /** Any consecutive record list within the size limit reads back as itself. */
  lemma ReadBack(codec: Codec, records: seq<AuthorityRecord>)
    requires codec.Faithful()
    requires AllFit(codec, records)
    requires Consecutive(records, 0, 0)
    ensures ReadFrom(codec, FrameAll(codec, records), 0, 0) == Some(records)
  {
    ReadExactly(codec, records, [], 0, 0);
    assert FrameAll(codec, records) + [] == FrameAll(codec, records);
  }

  lemma {:induction false} FrameAllSplit(codec: Codec, records: seq<AuthorityRecord>, j: nat)
    requires AllFramable(codec, records)
    requires j <= |records|
    ensures FrameAll(codec, records) == FrameAll(codec, records[..j]) + FrameAll(codec, records[j..])
    decreases |records|
  {
    if j == 0 {
      assert records[..0] == [] && records[0..] == records;
    } else {
      FrameAllSplit(codec, records[1..], j - 1);
      assert records[..j][1..] == records[1..][..j - 1];
      assert records[j..] == records[1..][j - 1..];
    }
  }

  /** Byte offset `k` separates two records (or is an end of the log). */
  ghost predicate Boundary(codec: Codec, records: seq<AuthorityRecord>, k: nat)
    requires AllFramable(codec, records)
  {
    exists j :: 0 <= j <= |records| && k == |FrameAll(codec, records[..j])|
  }

  lemma BoundaryAfterFirst(codec: Codec, records: seq<AuthorityRecord>, k: nat)
    requires AllFramable(codec, records) && records != []
    requires Boundary(codec, records[1..], k)
    ensures Boundary(codec, records, |Frame(codec, records[0])| + k)
  {
    var j :| 0 <= j <= |records[1..]| && k == |FrameAll(codec, records[1..][..j])|;
    assert records[..j + 1][1..] == records[1..][..j];
    assert |FrameAll(codec, records[..j + 1])| == |Frame(codec, records[0])| + k;
  }

  lemma {:induction false} CutInsideRecordRefused(codec: Codec, records: seq<AuthorityRecord>, count: nat, lastEpoch: U64, k: nat)
    requires codec.Faithful()
    requires AllFit(codec, records)
    requires Consecutive(records, count, lastEpoch)
    requires k <= |FrameAll(codec, records)|
    requires !Boundary(codec, records, k)
    ensures ReadFrom(codec, FrameAll(codec, records)[..k], count, lastEpoch) == None
    decreases |records|
  {
    assert records[..0] == [] && |FrameAll(codec, records[..0])| == 0;
    var cut := FrameAll(codec, records)[..k];
    var first, rest := Frame(codec, records[0]), FrameAll(codec, records[1..]);
    var payload := codec.encode(records[0]);
    if k < |first| {
      assert cut == first[..k];
      TruncatedFrameRefused(payload, k);
    } else {
      var m := k - |first|;
      assert cut == first + rest[..m];
      FirstPayloadOfFrame(payload, rest[..m]);
      assert cut[HEADER_BYTES + |payload|..] == rest[..m];
      ConsecutiveCons(records, count, lastEpoch);
      if Boundary(codec, records[1..], m) {
        BoundaryAfterFirst(codec, records, m);
      }
      CutInsideRecordRefused(codec, records[1..], count + 1, records[0].epoch, m);
    }
  }

  /**
   Reading a log cut anywhere: it is accepted exactly when the cut falls between two records,
   and then the reader returns exactly the records before the cut.
   */
  lemma ReadCutLog(codec: Codec, records: seq<AuthorityRecord>, k: nat)
    requires codec.Faithful()
    requires AllFit(codec, records)
    requires Consecutive(records, 0, 0)
    requires k <= |FrameAll(codec, records)|
    ensures ReadFrom(codec, FrameAll(codec, records)[..k], 0, 0).Some? <==> Boundary(codec, records, k)
    ensures forall j :: 0 <= j <= |records| && k == |FrameAll(codec, records[..j])| ==>
                          ReadFrom(codec, FrameAll(codec, records)[..k], 0, 0) == Some(records[..j])
  {
    if Boundary(codec, records, k) {
      forall j | 0 <= j <= |records| && k == |FrameAll(codec, records[..j])|
        ensures ReadFrom(codec, FrameAll(codec, records)[..k], 0, 0) == Some(records[..j])
      {
        FrameAllSplit(codec, records, j);
        assert FrameAll(codec, records)[..k] == FrameAll(codec, records[..j]);
        ConsecutivePrefix(records, j);
        ReadBack(codec, records[..j]);
      }
    } else {
      CutInsideRecordRefused(codec, records, 0, 0, k);
    }
  }

  lemma ConsecutivePrefix(records: seq<AuthorityRecord>, j: nat)
    requires j <= |records|
    requires Consecutive(records, 0, 0)
    ensures Consecutive(records[..j], 0, 0)
  {
    forall i | 0 <= i < j
      ensures InOrder(records[..j][i], 0 + i, EpochBefore(records[..j], i, 0))
    {
      assert records[..j][i] == records[i];
    }
  }

  /** The reader never accepts a record list it would not itself have demanded. */
  lemma {:induction false} AcceptedIsConsecutive(codec: Codec, bytes: seq<Byte>, count: nat, lastEpoch: U64)
    requires ReadFrom(codec, bytes, count, lastEpoch).Some?
    ensures Consecutive(ReadFrom(codec, bytes, count, lastEpoch).value, count, lastEpoch)
    decreases |bytes|
  {
    if bytes != [] {
      var payload := FirstPayload(bytes).value;
      var r := codec.decode(payload).value;
      var rest := bytes[HEADER_BYTES + |payload|..];
      AcceptedIsConsecutive(codec, rest, count + 1, r.epoch);
      var tail := ReadFrom(codec, rest, count + 1, r.epoch).value;
      forall i | 0 <= i < |tail| + 1
        ensures InOrder(([r] + tail)[i], count + i, EpochBefore([r] + tail, i, lastEpoch))
      {
        if i > 0 {
          assert InOrder(tail[i - 1], count + 1 + (i - 1), EpochBefore(tail, i - 1, r.epoch));
        }
      }
    }
  }

  /**
   A payload corrupted inside four adjacent bytes is refused wherever its frame stands in the
   log, whatever follows it.
   */
  lemma CorruptPayloadRefused(prefix: seq<Byte>, x: seq<Byte>, y: seq<Byte>, suffix: seq<Byte>, rest: seq<Byte>)
    requires |x| == |y| <= 4 && x != y
    requires |prefix + x + suffix| <= MAX_RECORD_BYTES
    ensures FirstPayload(FramePayload(prefix + x + suffix)[..HEADER_BYTES] + (prefix + y + suffix) + rest) == None
  {
    var good, bad := prefix + x + suffix, prefix + y + suffix;
    var bytes := FramePayload(good)[..HEADER_BYTES] + bad + rest;
    assert bytes[..4] == LengthToBe(|good|);
    assert bytes[4..8] == WordToBe(Crc32.Checksum(good));
    LengthRoundTrip(|good|);
    WordRoundTrip(Crc32.Checksum(good));
    assert bytes[HEADER_BYTES..HEADER_BYTES + |good|] == bad;
    Crc32.BurstDetected(prefix, x, y, suffix);
  }

  /** A log containing such a frame after any number of records is rejected as a whole. */
  lemma CorruptLogRejected(codec: Codec, records: seq<AuthorityRecord>,
                           prefix: seq<Byte>, x: seq<Byte>, y: seq<Byte>, suffix: seq<Byte>, rest: seq<Byte>)
    requires codec.Faithful()
    requires AllFramable(codec, records)
    requires |x| == |y| <= 4 && x != y
    requires |prefix + x + suffix| <= MAX_RECORD_BYTES
    ensures ReadFrom(codec, FrameAll(codec, records) +
                            (FramePayload(prefix + x + suffix)[..HEADER_BYTES] + (prefix + y + suffix) + rest), 0, 0) == None
  {
    var tail := FramePayload(prefix + x + suffix)[..HEADER_BYTES] + (prefix + y + suffix) + rest;
    CorruptPayloadRefused(prefix, x, y, suffix, rest);
    ReadExactly(codec, records, tail, 0, 0);
  }
}
