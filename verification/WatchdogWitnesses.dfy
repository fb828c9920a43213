/**
 Runs that arm a transaction whose record the strict reader will not take back, although every
 frame that led to it was within the limit.
 */
module WatchdogWitnesses {
  import opened Bytes
  import opened Wrappers
  import opened AuthorityLog
  import opened DecisionLog
  import opened WatchdogModel
  import opened WatchdogRuns
  import opened WatchdogTheorems
  import opened WatchdogTexts
  import opened RpcFrames
  import opened Unicode
  import opened Jcs

  const FIRST_START := StartEnv(Sound, false, false, true, true, Some(0), false, Written)
  const QUIET := Env(0, "", true, true, NoEpochFault, NoAppendFault, MarkerFate(true, None),
                     FenceScript(true, true, false, true, true, false, Some(0)), Some(Pass))
  const DEADLINE_SECS: nat := 10

  /** What the session binds, and what arming under the given base then writes. */
  function FirstBinding(host: string, lease: string): BoundSession {
    BoundSession(host, "tx", 1, lease, 2)
  }

  function FirstRecord(host: string, lease: string, base: string): Option<AuthorityRecord> {
    ArmedRecord(1, FirstBinding(host, lease), base, 0, DEADLINE_SECS * NANOS_PER_SEC)
  }

  /** The lease comes with the bind, the base with the arm request: two frames, each with its own limit. */
  function FirstBind(host: string, lease: string): SessionBind {
    SessionBind(host, "tx", 0, lease, 2, "nonce")
  }

  function FirstArm(host: string, base: string, capability: seq<Byte>): RequestEnvelope {
    RequestEnvelope(capability, 1, "arm", host, "tx", 1, Arm("arm", host, "tx", 1, base, DEADLINE_SECS, 0, [ROUTE_PRESENT], []))
  }

  function ArmRun(host: string, lease: string, base: string, capability: seq<Byte>): seq<Action> {
    [Start(false, FIRST_START),
     Connect(0, FirstBind(host, lease), true, capability, QUIET),
     Deliver(0, FirstArm(host, base, capability), QUIET)]
  }

  lemma RunOneMore(config: Config, sys: System, actions: seq<Action>, a: Action)
    requires SystemUsable(sys)
    ensures Run(config, sys, actions + [a]) == Step(config, Run(config, sys, actions), a).sys
  {
    assert (actions + [a])[..|actions|] == actions;
  }

  function Begun(): System {
    Up(Core(FRESH_STORE.(epochFile := HighWater(0)), Memory(false, None, None, 0, 0)), map[])
  }

  function Bound(host: string, lease: string, capability: seq<Byte>): System {
    Up(Core(FRESH_STORE.(epochFile := HighWater(0)), Memory(false, Some(FirstBinding(host, lease)), None, 0, 0)),
       map[0 := Session(SessionEstablished(capability, host, "tx", 1), 0)])
  }

  lemma StartsUp(config: Config)
    ensures Step(config, Down(FRESH_STORE), Start(false, FIRST_START)).sys == Begun()
  {
  }

  lemma Binds(config: Config, lease: string, capability: seq<Byte>)
    ensures Step(config, Begun(), Connect(0, FirstBind(config.hostId, lease), true, capability, QUIET)).sys
            == Bound(config.hostId, lease, capability)
  {
  }

  lemma Arms(config: Config, lease: string, base: string, capability: seq<Byte>)
    requires base != "" && FirstRecord(config.hostId, lease, base).Some? && SchemaValid(FirstRecord(config.hostId, lease, base).value)
    requires config.codec.Framable(FirstRecord(config.hostId, lease, base).value)
    ensures var sys := Step(config, Bound(config.hostId, lease, capability),
                            Deliver(0, FirstArm(config.hostId, base, capability), QUIET)).sys;
      && sys.Up? && !sys.core.mem.safeMode && sys.core.mem.armed.Some?
      && sys.core.store.log == [FirstRecord(config.hostId, lease, base).value]
  {
  }

  lemma FirstRecordIs(host: string, lease: string, base: string)
    ensures FirstRecord(host, lease, base) ==
            Some(AuthorityRecord(1, 1, Armed, Some(host), Some("tx"), Some(base), Some(lease), Some(2),
                                 Stamp(Some(0), Some(0)), Stamp(Some(DEADLINE_SECS), Some(0)), Stamp(Some(DEADLINE_SECS), Some(0)),
                                 NO_STAMP))
    ensures host != "" && lease != "" && base != "" ==> SchemaValid(FirstRecord(host, lease, base).value)
  {
  }

  /**
   For every host, coding, lease and base whose armed record takes more than 64 KiB (and less than
   the 4 GiB a frame can hold), the run of a start, a session bind and an arm request confirms the
   arm and stays out of safe mode, and no later start accepts the log it wrote.
   */
  lemma OversizeArmIsReached(config: Config, lease: string, base: string, capability: seq<Byte>, isReopen: bool, env: StartEnv)
    requires config.hostId != "" && lease != "" && base != "" && env.topology.Sound?
    requires FirstRecord(config.hostId, lease, base).Some?
    requires MAX_RECORD_BYTES < |config.codec.encode(FirstRecord(config.hostId, lease, base).value)| < U32_LIMIT
    ensures var sys := FromFresh(config, ArmRun(config.hostId, lease, base, capability));
      && sys.Up? && !sys.core.mem.safeMode && sys.core.mem.armed.Some?
      && !AllFit(config.codec, sys.core.store.log)
      && Startup(config.codec, sys.core.store, isReopen, env).reply == Err(SafeModeAtStartup)
  {
    hide Step, Startup, SchemaValid, FirstRecord;
    var host, run := config.hostId, ArmRun(config.hostId, lease, base, capability);
    FirstRecordIs(host, lease, base);
    StartsUp(config);
    Binds(config, lease, capability);
    Arms(config, lease, base, capability);
    assert [] + [run[0]] == [run[0]] && [run[0]] + [run[1]] == [run[0], run[1]] && [run[0], run[1]] + [run[2]] == run;
    RunOneMore(config, Down(FRESH_STORE), [], run[0]);
    RunOneMore(config, Down(FRESH_STORE), [run[0]], run[1]);
    RunOneMore(config, Down(FRESH_STORE), [run[0], run[1]], run[2]);
    var sys := FromFresh(config, run);
    assert !config.codec.Fits(sys.core.store.log[0]);
    OversizeRecordRefused(config.codec, sys.core.store, isReopen, env);
  }

  // ----- The two frames are within the limit although the record is not -----

  lemma BindFits(host: string, lease: string)
    requires |host| <= 20 && Plain(lease) && |lease| <= 40000
    ensures |BindBytes(FirstBind(host, lease))| <= MAX_FRAME_PAYLOAD_BYTES
  {
    hide FieldsText, Utf8, Print, Plain;
    var v := BindValues(FirstBind(host, lease));
    StringSize(host);
    StringSize("tx");
    StringSize("nonce");
    NumberSize(0);
    NumberSize(2);
    PlainStringSize(lease);
    FieldsSize(BIND_FIELDS, v, 0, 3, 1120, 40002);
    var head, fields := "{\"version\":1,\"payload\":{", FieldsText(BIND_FIELDS, v, 0);
    Utf8Appends(head + fields, "}}");
    Utf8Appends(head, fields);
    Utf8Size(head);
    Utf8Size("}}");
  }

  lemma PlainStringSize(s: string)
    requires Plain(s)
    ensures |Print(String(s))| >= |s| + 2 && |Utf8(Print(String(s)))| == |s| + 2
  {
    hide RestOfString;
    QuotedSize(s);
    QuotedPlainSize(s);
  }

  lemma CapabilitySize(capability: seq<Byte>)
    requires |capability| == 32
    ensures |Utf8(Print(Numbers(capability)))| <= 520
  {
    hide Print;
    var v := Numbers(capability);
    forall k | 0 <= k < |v.items| ensures |Print(v.items[k])| <= 3 {
      NumberSize(capability[k] as int);
    }
    ArraySize(v, 3);
  }

  lemma ChecksSize()
    ensures |Utf8(Print(Strings([ROUTE_PRESENT])))| <= 520 && |Utf8(Print(Strings([])))| <= 520
  {
    hide Print;
    StringSize(ROUTE_PRESENT);
    ArraySize(Strings([ROUTE_PRESENT]), 122);
    ArraySize(Strings([]), 0);
  }

  lemma ArmFits(host: string, base: string, capability: seq<Byte>)
    requires |host| <= 20 && Plain(base) && |base| <= 40000 && |capability| == 32
    ensures |ArmBytes(FirstArm(host, base, capability))| <= MAX_FRAME_PAYLOAD_BYTES
  {
    hide FieldsText, Utf8, Print, Plain, Numbers, Strings;
    var e := FirstArm(host, base, capability);
    var outer, inner := EnvelopeValues(e), ArmValues(e.request);
    StringSize(host);
    StringSize("tx");
    StringSize("arm");
    NumberSize(0);
    NumberSize(1);
    NumberSize(DEADLINE_SECS);
    PlainStringSize(base);
    CapabilitySize(capability);
    ChecksSize();
    FieldsSize(ENVELOPE_FIELDS, outer, 0, 0, 1120, 0);
    FieldsSize(ARM_FIELDS, inner, 0, 5, 1120, 40002);
    var head, request := "{" + FieldsText(ENVELOPE_FIELDS, outer, 0), FieldsText(ARM_FIELDS, inner, 0);
    Utf8Appends(head + ",\"request\":{" + request, "}}");
    Utf8Appends(head + ",\"request\":{", request);
    Utf8Appends(head, ",\"request\":{");
    Utf8Appends("{", FieldsText(ENVELOPE_FIELDS, outer, 0));
    Utf8Size("{");
    Utf8Size(",\"request\":{");
    Utf8Size("}}");
  }

  lemma RecordOverruns(host: string, lease: string, base: string)
    requires |host| <= 20 && Plain(lease) && Plain(base) && |lease| <= 40000 && |base| <= 40000
    requires |lease| + |base| >= MAX_RECORD_BYTES && FirstRecord(host, lease, base).Some?
    ensures MAX_RECORD_BYTES < |RecordBytes(FirstRecord(host, lease, base).value)| < U32_LIMIT
  {
    hide FieldsText, Utf8, Print, Plain, FirstRecord;
    FirstRecordIs(host, lease, base);
    var r := FirstRecord(host, lease, base).value;
    var v := RecordValues(r);
    StringSize(host);
    StringSize("tx");
    StringSize("Armed");
    NumberSize(0);
    NumberSize(1);
    NumberSize(2);
    NumberSize(DEADLINE_SECS);
    NullSize();
    PlainStringSize(lease);
    PlainStringSize(base);
    FieldsAtLeast(RECORD_FIELDS, v, 0, 5, 6);
    FieldsSize(RECORD_FIELDS, v, 0, 0, 41000, 0);
    var fields := FieldsText(RECORD_FIELDS, v, 0);
    Utf8Appends("{" + fields, "}");
    Utf8Appends("{", fields);
    Utf8Size("{");
    Utf8Size("}");
    Utf8Size(RecordText(r));
  }

  lemma NullSize()
    ensures |Utf8(Print(Null))| <= 16
  {
    Utf8Size("null");
  }

  /**
   Under the JSON coding, any plain lease and base of at most 40,000 characters each, and of 64 KiB
   together, pass as a bind frame and an arm frame and overrun the record.
   */
  lemma AcceptedFramesOverrun(host: string, lease: string, base: string, capability: seq<Byte>, isReopen: bool, env: StartEnv)
    requires 0 < |host| <= 20 && Plain(lease) && Plain(base) && |lease| <= 40000 && |base| <= 40000
    requires |lease| + |base| >= MAX_RECORD_BYTES && |capability| == 32 && env.topology.Sound?
    ensures var bind, arm := BindBytes(FirstBind(host, lease)), ArmBytes(FirstArm(host, base, capability));
      && |bind| <= MAX_FRAME_PAYLOAD_BYTES && Decoded(FramePayload(bind)) == Ok(bind)
      && |arm| <= MAX_FRAME_PAYLOAD_BYTES && Decoded(FramePayload(arm)) == Ok(arm)
    ensures JSON.Faithful()
    ensures var sys := FromFresh(Config(JSON, host), ArmRun(host, lease, base, capability));
      && sys.Up? && !sys.core.mem.safeMode && sys.core.mem.armed.Some?
      && Startup(JSON, sys.core.store, isReopen, env).reply == Err(SafeModeAtStartup)
  {
    hide FirstRecord, RecordBytes, BindBytes, ArmBytes, Startup, Run, FramePayload, Decoded, Plain;
    JsonIsFaithful();
    BindFits(host, lease);
    ArmFits(host, base, capability);
    RoundTrip(BindBytes(FirstBind(host, lease)));
    RoundTrip(ArmBytes(FirstArm(host, base, capability)));
    FirstRecordIs(host, lease, base);
    RecordOverruns(host, lease, base);
    OversizeArmIsReached(Config(JSON, host), lease, base, capability, isReopen, env);
  }

  /** There are such a lease and base. */
  lemma PlainTextsExist() returns (lease: string, base: string)
    ensures Plain(lease) && Plain(base) && |lease| <= 40000 && |base| <= 40000 && |lease| + |base| >= MAX_RECORD_BYTES
  {
    lease, base := seq(40000, i => 'l'), seq(40000, i => 'b');
  }
}
