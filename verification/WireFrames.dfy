/**
 Length-prefixed frames over a stream that delivers its bytes in any chunks, with interruptions:
 what is read depends on the bytes alone.
 */
module WireFrames {
  import opened Bytes
  import opened Wrappers

  const LENGTH_PREFIX_BYTES: nat := 4

  datatype FrameError =
    | Eof
    | Truncated(expected: nat, received: nat)
    | Oversize(declared: nat, limit: nat)
    | ZeroLength
    | Io

  // ----- Streams -----

  /** What the next reads meet: at most so many bytes, an interruption, or a failure. */
  datatype Delivery = Chunk(atMost: nat) | Interrupted | Failing

  datatype ReadOutcome = Bytes(count: nat) | WasInterrupted | HasFailed

  predicate Healthy(schedule: seq<Delivery>) {
    Failing !in schedule
  }

  method Fill(buf: array<Byte>, from: nat, bytes: seq<Byte>)
    requires from + |bytes| <= buf.Length
    modifies buf
    ensures buf[..] == old(buf[..from]) + bytes + old(buf[from + |bytes|..])
  {
    for i := 0 to |bytes|
      invariant buf[..from] == old(buf[..from])
      invariant buf[from..from + i] == bytes[..i]
      invariant buf[from + i..] == old(buf[from + i..])
    {
      buf[from + i] := bytes[i];
    }
    assert buf[..] == buf[..from] + buf[from..from + |bytes|] + buf[from + |bytes|..];
  }

  class ByteSource {
    const data: seq<Byte>
    var position: nat
    var schedule: seq<Delivery>

    ghost predicate Valid()
      reads this
    {
      position <= |data|
    }

    ghost function Remaining(): seq<Byte>
      requires Valid()
      reads this
    {
      data[position..]
    }

    constructor (data: seq<Byte>, schedule: seq<Delivery>)
      ensures Valid() && Remaining() == data && this.schedule == schedule
    {
      this.data, position, this.schedule := data, 0, schedule;
    }

    /** One read into `buf[from..]`: some bytes (none only at the end), an interruption, or a failure. */
    method Read(buf: array<Byte>, from: nat) returns (outcome: ReadOutcome)
      requires Valid() && from < buf.Length
      modifies this`position, this`schedule, buf
      ensures Valid() && position >= old(position)
      ensures |schedule| <= |old(schedule)|
      ensures Healthy(old(schedule)) ==> Healthy(schedule)
      ensures outcome.HasFailed? ==> !Healthy(old(schedule))
      ensures !outcome.Bytes? ==> |schedule| < |old(schedule)| && position == old(position) && buf[..] == old(buf[..])
      ensures outcome.Bytes? ==>
                && outcome.count <= buf.Length - from && position == old(position) + outcome.count
                && (outcome.count == 0 <==> old(position) == |data|)
                && buf[..] == old(buf[..from]) + data[old(position)..position] + old(buf[from + outcome.count..])
    {
      var most := buf.Length - from;
      if schedule != [] {
        var next := schedule[0];
        schedule := schedule[1..];
        match next {
          case Interrupted => return WasInterrupted;
          case Failing => return HasFailed;
          case Chunk(atMost) =>
            if 0 < atMost < most {
              most := atMost;
            }
        }
      }
      var count := if most <= |data| - position then most else |data| - position;
      Fill(buf, from, data[position..position + count]);
      position := position + count;
      return Bytes(count);
    }
  }

  function Least(a: nat, b: nat): nat {
    if a <= b then a else b
  }

  /** Fills the buffer as far as the stream goes, whatever the chunks and interruptions. */
  method ReadFull(source: ByteSource, buf: array<Byte>) returns (r: Result<nat, FrameError>)
    requires source.Valid()
    modifies source, buf
    ensures source.Valid() && (Healthy(old(source.schedule)) ==> Healthy(source.schedule))
    ensures r.Err? ==> r.error == Io && !Healthy(old(source.schedule))
    ensures r.Ok? ==>
              && r.value == Least(buf.Length, |old(source.Remaining())|)
              && source.position == old(source.position) + r.value
              && buf[..r.value] == old(source.Remaining())[..r.value]
  {
    var filled := 0;
    while filled < buf.Length
      invariant source.Valid() && filled <= buf.Length
      invariant Healthy(old(source.schedule)) ==> Healthy(source.schedule)
      invariant source.position == old(source.position) + filled
      invariant buf[..filled] == source.data[old(source.position)..source.position]
      decreases |source.schedule|, buf.Length - filled
    {
      ghost var before := buf[..filled];
      ghost var at := source.position;
      var outcome := source.Read(buf, filled);
      match outcome {
        case WasInterrupted =>
        case HasFailed => return Err(Io);
        case Bytes(count) =>
          if count == 0 {
            break;
          }
          filled := filled + count;
          assert buf[..filled] == before + source.data[at..source.position];
      }
    }
    ghost var start := old(source.position);
    assert source.data[start..][..filled] == source.data[start..start + filled];
    return Ok(filled);
  }

  // ----- One frame -----

  /** What reading one frame from these bytes answers. */
  function FrameAt(bytes: seq<Byte>, limit: U32): Result<seq<Byte>, FrameError> {
    if bytes == [] then Err(Eof)
    else if |bytes| < LENGTH_PREFIX_BYTES then Err(Truncated(LENGTH_PREFIX_BYTES, |bytes|))
    else
      var declared := LengthFromBe(bytes[..LENGTH_PREFIX_BYTES]);
      if declared == 0 then Err(ZeroLength)
      else if declared > limit then Err(Oversize(declared, limit))
      else if |bytes| - LENGTH_PREFIX_BYTES < declared then Err(Truncated(declared, |bytes| - LENGTH_PREFIX_BYTES))
      else Ok(bytes[LENGTH_PREFIX_BYTES..LENGTH_PREFIX_BYTES + declared])
  }

  /** How many bytes that takes from the stream. */
  function Taken(bytes: seq<Byte>, limit: U32): (n: nat)
    ensures n <= |bytes|
  {
    match FrameAt(bytes, limit)
    case Ok(body) => LENGTH_PREFIX_BYTES + |body|
    case Err(ZeroLength) => LENGTH_PREFIX_BYTES
    case Err(Oversize(_, _)) => LENGTH_PREFIX_BYTES
    case Err(_) => |bytes|
  }

  /** Chunking and interruptions make no difference: the bytes decide. */
  method ReadFrame(source: ByteSource, limit: U32) returns (r: Result<seq<Byte>, FrameError>)
    requires source.Valid()
    modifies source
    ensures source.Valid() && (Healthy(old(source.schedule)) ==> Healthy(source.schedule))
    ensures r == Err(Io) ==> !Healthy(old(source.schedule))
    ensures r != Err(Io) ==> r == FrameAt(old(source.Remaining()), limit)
    ensures r != Err(Io) ==> source.position == old(source.position) + Taken(old(source.Remaining()), limit)
  {
    hide LengthFromBe;
    ghost var bytes := source.Remaining();
    var prefix := new Byte[LENGTH_PREFIX_BYTES];
    var got := ReadFull(source, prefix);
    if got.Err? {
      return Err(Io);
    }
    if got.value == 0 {
      return Err(Eof);
    }
    if got.value < LENGTH_PREFIX_BYTES {
      return Err(Truncated(LENGTH_PREFIX_BYTES, got.value));
    }
    assert prefix[..] == bytes[..LENGTH_PREFIX_BYTES];
    var declared := LengthFromBe(prefix[..]);
    if declared == 0 {
      return Err(ZeroLength);
    }
    if declared > limit {
      return Err(Oversize(declared, limit));
    }
    var body := new Byte[declared];
    assert source.Remaining() == bytes[LENGTH_PREFIX_BYTES..];
    var received := ReadFull(source, body);
    if received.Err? {
      return Err(Io);
    }
    if received.value < declared {
      return Err(Truncated(declared, received.value));
    }
    assert body[..] == body[..declared];
    assert bytes[LENGTH_PREFIX_BYTES..][..declared] == bytes[LENGTH_PREFIX_BYTES..LENGTH_PREFIX_BYTES + declared];
    return Ok(body[..]);
  }

  // ----- Writing -----

  predicate Writable(body: seq<Byte>, limit: U32) {
    0 < |body| <= limit
  }

  function FrameOf(body: seq<Byte>): (frame: seq<Byte>)
    requires |body| < U32_LIMIT
    ensures |frame| == LENGTH_PREFIX_BYTES + |body|
  {
    LengthToBe(|body|) + body
  }

  class ByteSink {
    var written: seq<Byte>

    constructor ()
      ensures written == []
    {
      written := [];
    }

    /** Writes everything, or fails after some of it. */
    method WriteAll(bytes: seq<Byte>, failAfter: Option<nat>) returns (ok: bool)
      modifies this
      ensures ok <==> failAfter.None?
      ensures ok ==> written == old(written) + bytes
      ensures !ok ==> exists n :: 0 <= n <= |bytes| && written == old(written) + bytes[..n]
    {
      if failAfter.Some? {
        var n := Least(failAfter.value, |bytes|);
        written := written + bytes[..n];
        return false;
      }
      written := written + bytes;
      return true;
    }
  }

  /** Refuses what the reader would refuse, before writing anything. */
  method WriteFrame(sink: ByteSink, body: seq<Byte>, limit: U32, prefixFails: Option<nat>, bodyFails: Option<nat>, flushFails: bool)
    returns (r: Result<(), FrameError>)
    modifies sink
    ensures body == [] ==> r == Err(ZeroLength)
    ensures body != [] && |body| > limit ==> r == Err(Oversize(if |body| < U32_LIMIT then |body| else U32_LIMIT - 1, limit))
    ensures body == [] || |body| > limit ==> sink.written == old(sink.written)
    ensures 0 < |body| <= limit ==> (r.Ok? <==> prefixFails.None? && bodyFails.None? && !flushFails)
    ensures 0 < |body| <= limit && r.Err? ==> r.error == Io
    ensures r.Ok? ==> 0 < |body| <= limit && sink.written == old(sink.written) + FrameOf(body)
  {
    hide LengthToBe;
    if body == [] {
      return Err(ZeroLength);
    }
    if |body| >= U32_LIMIT {
      return Err(Oversize(U32_LIMIT - 1, limit));
    }
    if |body| > limit {
      return Err(Oversize(|body|, limit));
    }
    var ok := sink.WriteAll(LengthToBe(|body|), prefixFails);
    if !ok {
      return Err(Io);
    }
    ok := sink.WriteAll(body, bodyFails);
    if !ok || flushFails {
      return Err(Io);
    }
    return Ok(());
  }

  // ----- Whole streams -----

  predicate AllWritable(bodies: seq<seq<Byte>>, limit: U32) {
    forall i :: 0 <= i < |bodies| ==> Writable(bodies[i], limit)
  }

  function Stream(bodies: seq<seq<Byte>>, limit: U32): seq<Byte>
    requires AllWritable(bodies, limit)
  {
    if bodies == [] then [] else FrameOf(bodies[0]) + Stream(bodies[1..], limit)
  }

  /** Reading frame after frame until the first error. */
  function ReadOn(bytes: seq<Byte>, limit: U32): (seq<seq<Byte>>, FrameError)
    decreases |bytes|
  {
    match FrameAt(bytes, limit)
    case Err(error) => ([], error)
    case Ok(body) =>
      var (rest, error) := ReadOn(bytes[LENGTH_PREFIX_BYTES + |body|..], limit);
      ([body] + rest, error)
  }

  lemma FrameReadsBack(body: seq<Byte>, limit: U32, rest: seq<Byte>)
    requires Writable(body, limit)
    ensures FrameAt(FrameOf(body) + rest, limit) == Ok(body)
    ensures (FrameOf(body) + rest)[LENGTH_PREFIX_BYTES + |body|..] == rest
  {
    hide LengthToBe, LengthFromBe;
    var bytes := FrameOf(body) + rest;
    LengthRoundTrip(|body|);
    assert bytes[..LENGTH_PREFIX_BYTES] == LengthToBe(|body|);
    assert bytes[LENGTH_PREFIX_BYTES..LENGTH_PREFIX_BYTES + |body|] == body;
  }

  lemma {:induction false} StreamThen(bodies: seq<seq<Byte>>, limit: U32, tail: seq<Byte>)
    requires AllWritable(bodies, limit)
    ensures ReadOn(Stream(bodies, limit) + tail, limit) == (bodies + ReadOn(tail, limit).0, ReadOn(tail, limit).1)
  {
    hide FrameAt, FrameOf;
    if bodies == [] {
      assert Stream(bodies, limit) + tail == tail;
      assert bodies + ReadOn(tail, limit).0 == ReadOn(tail, limit).0;
    } else {
      var rest := Stream(bodies[1..], limit) + tail;
      StreamThen(bodies[1..], limit, tail);
      FrameReadsBack(bodies[0], limit, rest);
      assert Stream(bodies, limit) + tail == FrameOf(bodies[0]) + rest;
      assert [bodies[0]] + (bodies[1..] + ReadOn(tail, limit).0) == bodies + ReadOn(tail, limit).0;
    }
  }

  /** Any list of writable bodies is read back as that list, followed by a clean end. */
  lemma StreamReadsBack(bodies: seq<seq<Byte>>, limit: U32)
    requires AllWritable(bodies, limit)
    ensures ReadOn(Stream(bodies, limit), limit) == (bodies, Eof)
  {
    hide Stream, FrameOf;
    StreamThen(bodies, limit, []);
    assert Stream(bodies, limit) + [] == Stream(bodies, limit);
    assert bodies + [] == bodies;
  }

  /** A stream cut inside a frame gives the whole frames, then the true byte counts, and never a body. */
  lemma CutStreamIsTruncated(bodies: seq<seq<Byte>>, body: seq<Byte>, limit: U32, cut: nat)
    requires AllWritable(bodies, limit) && Writable(body, limit) && 0 < cut < LENGTH_PREFIX_BYTES + |body|
    ensures ReadOn(Stream(bodies, limit) + FrameOf(body)[..cut], limit) ==
            (bodies, if cut < LENGTH_PREFIX_BYTES then Truncated(LENGTH_PREFIX_BYTES, cut)
                     else Truncated(|body|, cut - LENGTH_PREFIX_BYTES))
  {
    hide LengthToBe, LengthFromBe, Stream;
    var tail := FrameOf(body)[..cut];
    StreamThen(bodies, limit, tail);
    LengthRoundTrip(|body|);
    if cut >= LENGTH_PREFIX_BYTES {
      assert tail[..LENGTH_PREFIX_BYTES] == LengthToBe(|body|);
    }
    assert bodies + [] == bodies;
  }

  // ----- Streams in motion -----

  /**
   Frame after frame from the source until the first error: exactly what the bytes say, whatever
   the chunks and interruptions; if the stream itself fails, a beginning of that.
   */
  method ReadAll(source: ByteSource, limit: U32) returns (bodies: seq<seq<Byte>>, error: FrameError)
    requires source.Valid()
    modifies source
    ensures error == Io ==> !Healthy(old(source.schedule)) && bodies <= ReadOn(old(source.Remaining()), limit).0
    ensures error != Io ==> (bodies, error) == ReadOn(old(source.Remaining()), limit)
  {
    hide FrameAt;
    bodies := [];
    ghost var whole := ReadOn(source.Remaining(), limit);
    while true
      invariant source.Valid() && (Healthy(old(source.schedule)) ==> Healthy(source.schedule))
      invariant whole.0 == bodies + ReadOn(source.Remaining(), limit).0 && whole.1 == ReadOn(source.Remaining(), limit).1
      decreases |source.data| - source.position
    {
      ghost var bytes := source.Remaining();
      var r := ReadFrame(source, limit);
      if r.Err? {
        assert bodies + [] == bodies;
        return bodies, r.error;
      }
      assert source.Remaining() == bytes[LENGTH_PREFIX_BYTES + |r.value|..];
      bodies := bodies + [r.value];
    }
  }

  lemma {:induction false} StreamSnoc(bodies: seq<seq<Byte>>, body: seq<Byte>, limit: U32)
    requires AllWritable(bodies, limit) && Writable(body, limit)
    ensures Stream(bodies + [body], limit) == Stream(bodies, limit) + FrameOf(body)
  {
    hide FrameOf;
    if bodies == [] {
      assert (bodies + [body])[1..] == [];
    } else {
      StreamSnoc(bodies[1..], body, limit);
      assert (bodies + [body])[1..] == bodies[1..] + [body];
    }
  }

  method WriteAllFrames(bodies: seq<seq<Byte>>, limit: U32) returns (sink: ByteSink)
    requires AllWritable(bodies, limit)
    ensures fresh(sink) && sink.written == Stream(bodies, limit)
  {
    hide FrameOf;
    sink := new ByteSink();
    for i := 0 to |bodies|
      invariant fresh(sink) && sink.written == Stream(bodies[..i], limit)
    {
      var r := WriteFrame(sink, bodies[i], limit, None, None, false);
      StreamSnoc(bodies[..i], bodies[i], limit);
      assert bodies[..i + 1] == bodies[..i] + [bodies[i]];
    }
    assert bodies[..|bodies|] == bodies;
  }

  /** Any list of writable bodies, written as frames and delivered in any chunks with any interruptions, is read back. */
  method Exchange(bodies: seq<seq<Byte>>, limit: U32, schedule: seq<Delivery>)
    returns (received: seq<seq<Byte>>, end: FrameError)
    requires AllWritable(bodies, limit) && Healthy(schedule)
    ensures received == bodies && end == Eof
  {
    hide Stream, ReadOn;
    var sink := WriteAllFrames(bodies, limit);
    var source := new ByteSource(sink.written, schedule);
    StreamReadsBack(bodies, limit);
    received, end := ReadAll(source, limit);
  }

  /** The same stream cut inside its next frame: the whole frames, then the true byte counts. */
  method CutExchange(bodies: seq<seq<Byte>>, body: seq<Byte>, limit: U32, cut: nat, schedule: seq<Delivery>)
    returns (received: seq<seq<Byte>>, end: FrameError)
    requires AllWritable(bodies, limit) && Writable(body, limit) && Healthy(schedule)
    requires 0 < cut < LENGTH_PREFIX_BYTES + |body|
    ensures received == bodies
    ensures end == if cut < LENGTH_PREFIX_BYTES then Truncated(LENGTH_PREFIX_BYTES, cut)
                   else Truncated(|body|, cut - LENGTH_PREFIX_BYTES)
  {
    hide Stream, ReadOn, FrameOf;
    var sink := WriteAllFrames(bodies, limit);
    var whole := |sink.written|;
    var last := WriteFrame(sink, body, limit, None, None, false);
    assert sink.written[..whole + cut] == Stream(bodies, limit) + FrameOf(body)[..cut];
    var source := new ByteSource(sink.written[..whole + cut], schedule);
    CutStreamIsTruncated(bodies, body, limit, cut);
    received, end := ReadAll(source, limit);
  }

  /** Each refusal of a frame is that of the first test that fails: end, prefix, emptiness, limit, body. */
  lemma FrameRefusals(bytes: seq<Byte>, limit: U32)
    ensures var r := FrameAt(bytes, limit);
      && (bytes == [] ==> r == Err(Eof))
      && (0 < |bytes| < 4 ==> r == Err(Truncated(4, |bytes|)))
      && (|bytes| >= 4 ==>
            && var declared := LengthFromBe(bytes[..4]);
            && (declared == 0 ==> r == Err(ZeroLength) && Taken(bytes, limit) == 4)
            && (declared > limit ==> declared > 0 && r == Err(Oversize(declared, limit)) && Taken(bytes, limit) == 4)
            && (0 < declared <= limit && |bytes| < 4 + declared ==> r == Err(Truncated(declared, |bytes| - 4)))
            && (0 < declared <= limit && |bytes| >= 4 + declared ==> r == Ok(bytes[4..4 + declared]) && Taken(bytes, limit) == 4 + declared))
  {
    hide LengthFromBe;
  }
}
