/** The watchdog's RPC frames: length, checksum, payload; one frame per message, nothing before or after. */
module RpcFrames {
  import opened Bytes
  import opened Wrappers
  import opened DecisionLog
  import Crc32

  const MAX_FRAME_PAYLOAD_BYTES: nat := 65536

  datatype FrameRefusal = OversizeFrame | MalformedFrame | CrcMismatch

  /** What decoding answers. */
  function Decoded(frame: seq<Byte>): Result<seq<Byte>, FrameRefusal> {
    if |frame| < HEADER_BYTES then Err(MalformedFrame)
    else
      var length := LengthFromBe(frame[..4]);
      if length > MAX_FRAME_PAYLOAD_BYTES then Err(OversizeFrame)
      else if |frame| != HEADER_BYTES + length then Err(MalformedFrame)
      else if Crc32.Checksum(frame[HEADER_BYTES..]) != WordFromBe(frame[4..HEADER_BYTES]) then Err(CrcMismatch)
      else Ok(frame[HEADER_BYTES..])
  }

  method EncodeFrame(payload: seq<Byte>) returns (frame: Result<seq<Byte>, FrameRefusal>)
    ensures frame.Err? <==> |payload| > MAX_FRAME_PAYLOAD_BYTES
    ensures frame.Err? ==> frame.error == OversizeFrame
    ensures frame.Ok? ==> Decoded(frame.value) == Ok(payload)
  {
    if |payload| > MAX_FRAME_PAYLOAD_BYTES {
      return Err(OversizeFrame);
    }
    var crc := Crc32.Compute(payload);
    RoundTrip(payload);
    return Ok(LengthToBe(|payload|) + WordToBe(crc) + payload);
  }

  method DecodeFrame(frame: seq<Byte>) returns (payload: Result<seq<Byte>, FrameRefusal>)
    ensures payload == Decoded(frame)
  {
    if |frame| < HEADER_BYTES {
      return Err(MalformedFrame);
    }
    var length := LengthFromBe(frame[..4]);
    if length > MAX_FRAME_PAYLOAD_BYTES {
      return Err(OversizeFrame);
    }
    if |frame| != HEADER_BYTES + length {
      return Err(MalformedFrame);
    }
    var body := frame[HEADER_BYTES..];
    var crc := Crc32.Compute(body);
    return if crc != WordFromBe(frame[4..HEADER_BYTES]) then Err(CrcMismatch) else Ok(body);
  }

  lemma RoundTrip(payload: seq<Byte>)
    requires |payload| <= MAX_FRAME_PAYLOAD_BYTES
    ensures Decoded(FramePayload(payload)) == Ok(payload)
  {
    hide Crc32.Checksum, LengthToBe, LengthFromBe, WordToBe, WordFromBe;
    var frame := FramePayload(payload);
    LengthRoundTrip(|payload|);
    WordRoundTrip(Crc32.Checksum(payload));
    assert frame[..4] == LengthToBe(|payload|);
    assert frame[4..HEADER_BYTES] == WordToBe(Crc32.Checksum(payload));
    assert frame[HEADER_BYTES..] == payload;
  }

  lemma Base256Back(a: nat, b: nat, c: nat, d: nat)
    requires a < 256 && b < 256 && c < 256 && d < 256
    ensures var n := ((a * 256 + b) * 256 + c) * 256 + d;
      && n < U32_LIMIT && n / 0x100_0000 == a && n / 0x1_0000 % 256 == b && n / 256 % 256 == c && n % 256 == d
  {
  }

  lemma NatOfByte(b: Byte) returns (n: nat)
    ensures n == b as nat && n < 256 && n as Byte == b
  {
    n := b as nat;
  }

  lemma LengthToBeOf(a: nat, b: nat, c: nat, d: nat)
    requires a < 256 && b < 256 && c < 256 && d < 256
    ensures ((a * 256 + b) * 256 + c) * 256 + d < U32_LIMIT
    ensures LengthToBe(((a * 256 + b) * 256 + c) * 256 + d) == [a as Byte, b as Byte, c as Byte, d as Byte]
  {
    Base256Back(a, b, c, d);
  }

  lemma LengthParts(b: seq<Byte>) returns (n0: nat, n1: nat, n2: nat, n3: nat)
    requires |b| == 4
    ensures n0 < 256 && n1 < 256 && n2 < 256 && n3 < 256
    ensures n0 as Byte == b[0] && n1 as Byte == b[1] && n2 as Byte == b[2] && n3 as Byte == b[3]
    ensures LengthFromBe(b) == ((n0 * 256 + n1) * 256 + n2) * 256 + n3
  {
    n0 := NatOfByte(b[0]);
    n1 := NatOfByte(b[1]);
    n2 := NatOfByte(b[2]);
    n3 := NatOfByte(b[3]);
  }

  lemma LengthBytesRoundTrip(b: seq<Byte>)
    requires |b| == 4
    ensures LengthFromBe(b) < U32_LIMIT && LengthToBe(LengthFromBe(b)) == b
  {
    hide LengthToBe, LengthFromBe;
    var n0, n1, n2, n3 := LengthParts(b);
    LengthToBeOf(n0, n1, n2, n3);
  }

  lemma WordBytesRoundTrip(b: seq<Byte>)
    requires |b| == 4
    ensures WordToBe(WordFromBe(b)) == b
  {
    var w := WordToBe(WordFromBe(b));
    assert w[0] == b[0] && w[1] == b[1] && w[2] == b[2] && w[3] == b[3];
  }

  /** A frame is accepted exactly when it is the encoding of the payload it is decoded to. */
  lemma AcceptedFramesAreEncodings(frame: seq<Byte>, payload: seq<Byte>)
    ensures Decoded(frame) == Ok(payload) <==> |payload| <= MAX_FRAME_PAYLOAD_BYTES && frame == FramePayload(payload)
  {
    hide Crc32.Checksum, LengthToBe, LengthFromBe, WordToBe, WordFromBe;
    if |payload| <= MAX_FRAME_PAYLOAD_BYTES {
      RoundTrip(payload);
    }
    if Decoded(frame) == Ok(payload) {
      LengthBytesRoundTrip(frame[..4]);
      WordBytesRoundTrip(frame[4..HEADER_BYTES]);
      assert frame == frame[..4] + frame[4..HEADER_BYTES] + frame[HEADER_BYTES..];
    }
  }

  /** Changing up to four adjacent payload bytes is always caught by the checksum. */
  lemma CorruptPayloadMismatches(prefix: seq<Byte>, x: seq<Byte>, y: seq<Byte>, suffix: seq<Byte>)
    requires |x| == |y| <= 4 && x != y
    requires |prefix + x + suffix| <= MAX_FRAME_PAYLOAD_BYTES
    ensures Decoded(FramePayload(prefix + x + suffix)[..HEADER_BYTES] + (prefix + y + suffix)) == Err(CrcMismatch)
  {
    hide Crc32.Checksum, LengthToBe, LengthFromBe, WordToBe, WordFromBe;
    var sent, got := prefix + x + suffix, prefix + y + suffix;
    var frame := FramePayload(sent)[..HEADER_BYTES] + got;
    LengthRoundTrip(|sent|);
    WordRoundTrip(Crc32.Checksum(sent));
    assert frame[..4] == LengthToBe(|sent|);
    assert frame[4..HEADER_BYTES] == WordToBe(Crc32.Checksum(sent));
    assert frame[HEADER_BYTES..] == got;
    Crc32.BurstDetected(prefix, x, y, suffix);
  }

  /** Each refusal is that of the first test that fails: header, limit, exact length, checksum. */
  lemma RefusalsExactly(frame: seq<Byte>)
    ensures |frame| < 8 ==> Decoded(frame) == Err(MalformedFrame)
    ensures |frame| >= 8 ==>
              var length := LengthFromBe(frame[..4]);
              && (length > 65536 ==> Decoded(frame) == Err(OversizeFrame))
              && (length <= 65536 && |frame| != 8 + length ==> Decoded(frame) == Err(MalformedFrame))
              && (length <= 65536 && |frame| == 8 + length ==>
                    Decoded(frame) == if WordFromBe(frame[4..8]) == Crc32.Checksum(frame[8..]) then Ok(frame[8..]) else Err(CrcMismatch))
  {
    hide LengthFromBe, WordFromBe, Crc32.Checksum;
  }
}
