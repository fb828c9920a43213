/**
 Whole runs of the watchdog: startups, session binds, delivered requests, storage faults at any
 step and process deaths, in any order. A crash in the middle of a call leaves the same store as
 a storage fault at that step whose safe-mode marker was not stored, followed by `Stop`.
 */
module WatchdogRuns {
  import opened Bytes
  import opened Wrappers
  import opened AuthorityLog
  import opened DecisionLog
  import opened WatchdogModel

  // ----- Sessions: decode, then handle -----

  datatype Session = Session(established: SessionEstablished, lastCounter: U64)

  datatype RequestEnvelope = RequestEnvelope(
    capability: seq<Byte>, counter: U64, requestId: string, hostId: string, txId: string, epoch: U64, request: LocalRequest)

  /** `verify_authenticated`. */
  function VerifyAuthenticated(s: Session, e: RequestEnvelope): Option<RpcError> {
    if e.capability != s.established.capability || e.counter == 0 || s.lastCounter == U64_MAX then Some(WrongCapability)
    else if e.counter != s.lastCounter + 1 then
      Some(if e.counter <= s.lastCounter then ReplayCounter else WrongCapability)
    else if e.hostId != s.established.hostId || e.txId != s.established.txId || e.epoch != s.established.epoch then
      Some(WrongBinding)
    else None
  }

  /** `decode_request` on a parsed envelope: the refusal, if any. */
  function DecodeRequest(s: Session, e: RequestEnvelope): Option<RpcError> {
    var verified := VerifyAuthenticated(s, e);
    if verified.Some? then verified
    else if e.requestId != e.request.requestId then Some(WrongBinding)
    else if e.request.hostId != e.hostId || e.request.txId != e.txId then Some(WrongBinding)
    else if e.request.epoch != e.epoch then Some(WrongEpoch)
    else None
  }

  // ----- The system -----

  datatype System =
    | Down(store: Store)
    | Up(core: Core, sessions: map<nat, Session>)

  datatype Action =
    | Start(isReopen: bool, startEnv: StartEnv)
    | Connect(id: nat, bind: SessionBind, peerIsBroker: bool, capability: seq<Byte>, env: Env)
    | Deliver(id: nat, envelope: RequestEnvelope, env: Env)
    | Stop

  datatype Config = Config(codec: Codec, hostId: string)

  function StoreOf(sys: System): Store {
    if sys.Down? then sys.store else sys.core.store
  }

  predicate SystemUsable(sys: System) {
    sys.Up? ==> Usable(sys.core)
  }

  datatype Moved = Moved(sys: System, effects: seq<Effect>)

  /** The outcome of delivering an accepted envelope. */
  function Handled(config: Config, sys: System, a: Action): Outcome<LocalResponse>
    requires SystemUsable(sys) && sys.Up? && a.Deliver?
  {
    HandleRequest(config.codec, config.hostId, sys.core, a.envelope.request, a.env)
  }

  function Step(config: Config, sys: System, a: Action): (m: Moved)
    requires SystemUsable(sys)
    ensures SystemUsable(m.sys)
  {
    match a
    case Stop => Moved(Down(StoreOf(sys)), [])
    case Start(isReopen, startEnv) =>
      if sys.Up? then Moved(sys, [])
      else
        var s := Startup(config.codec, sys.store, isReopen, startEnv);
        Moved(if s.reply.Ok? then Up(Core(s.store, s.reply.value), map[]) else Down(s.store), [])
    case Connect(id, bind, peerIsBroker, capability, env) =>
      if sys.Down? then Moved(sys, [])
      else
        var o := BindSession(sys.core, bind, peerIsBroker, capability, env);
        Moved(Up(o.core, if o.reply.Ok? then sys.sessions[id := Session(o.reply.value, 0)] else sys.sessions), o.effects)
    case Deliver(id, e, env) =>
      if sys.Down? || id !in sys.sessions || DecodeRequest(sys.sessions[id], e).Some? then Moved(sys, [])
      else
        var o := Handled(config, sys, a);
        Moved(Up(o.core, sys.sessions[id := sys.sessions[id].(lastCounter := e.counter)]), o.effects)
  }

  function Run(config: Config, sys: System, actions: seq<Action>): (sys': System)
    requires SystemUsable(sys)
    ensures SystemUsable(sys')
  {
    if actions == [] then sys
    else Step(config, Run(config, sys, actions[..|actions| - 1]), actions[|actions| - 1]).sys
  }

  function FromFresh(config: Config, actions: seq<Action>): System {
    Run(config, Down(FRESH_STORE), actions)
  }

  // ----- The invariant -----

  predicate WriterKind(kind: Kind) {
    kind.Armed? || kind.LeaseRenewed? || IsBegin(kind)
  }

  /** What every store ever reached satisfies, whether the process is up, latched or down. */
  ghost predicate StoreInv(codec: Codec, store: Store) {
    && Consecutive(store.log, 0, 0)
    && (forall i :: 0 <= i < |store.log| ==> WriterKind(store.log[i].kind) && codec.Framable(store.log[i]))
    && (forall i :: 0 <= i < |store.log| ==> store.epochFile == HighWater(store.log[i].epoch))
    && Replay(store.log).Some?
    && (Replay(store.log).value.None? <==> store.log == [])
    && (store.torn.Some? ==> codec.Framable(store.torn.value.record) && 0 < store.torn.value.written)
  }

  /** The memory is what replaying the durable log yields, except that its clock may be ahead. */
  ghost predicate Agrees(core: Core) {
    var store, mem := core.store, core.mem;
    && store.torn.None? && !store.marker && store.epochFile.HighWater?
    && mem.logSeq == |store.log|
    && Replay(store.log).Some?
    && var active := Replay(store.log).value;
    && mem.armed == MemoryOf(active, mem.logSeq).armed
    && (active.Some? ==> mem.binding == Some(active.value.binding)
                         && active.value.lastActivity <= mem.lastClock
                         && active.value.logSeq == |store.log|)
  }

  ghost predicate CoreInv(codec: Codec, core: Core) {
    StoreInv(codec, core.store) && (!core.mem.safeMode ==> Agrees(core))
  }

  predicate SessionBound(core: Core, s: Session) {
    && core.mem.binding.Some?
    && var b := core.mem.binding.value;
    && s.established.hostId == b.hostId && s.established.txId == b.txId && s.established.epoch == b.epoch
  }

  ghost predicate SystemInv(codec: Codec, sys: System) {
    match sys
    case Down(store) => StoreInv(codec, store)
    case Up(core, sessions) => CoreInv(codec, core) && forall id :: id in sessions ==> SessionBound(core, sessions[id])
  }

  // ----- Appending keeps the store invariant -----

  /** The record extends the replayed log to an authority, unless its schema is refused anyway. */
  ghost predicate Extends(store: Store, r: AuthorityRecord, next: Authority)
    requires Replay(store.log).Some?
  {
    && WriterKind(r.kind)
    && r.sequence == |store.log| + 1
    && store.epochFile == HighWater(r.epoch)
    && (SchemaValid(r) ==> ReplayRecord(Replay(store.log).value, r) == Some(Some(next)))
  }

  lemma AppendKeepsStore(codec: Codec, store: Store, r: AuthorityRecord, fault: AppendFault, next: Authority)
    requires StoreInv(codec, store) && store.torn.None?
    requires Extends(store, r, next)
    ensures StoreInv(codec, StoreAfterAppend(codec, store, r, fault))
    ensures FrameWritten(codec, r, fault) ==> Replay(store.log + [r]) == Some(Some(next))
  {
    hide SchemaValid, ReplayRecord, Consecutive, Replay;
    if FrameWritten(codec, r, fault) {
      ReplaySnoc(store.log, r);
      ConsecutiveSnoc(store.log, r);
    }
  }

  lemma ConsecutiveSnoc(log: seq<AuthorityRecord>, r: AuthorityRecord)
    requires Consecutive(log, 0, 0) && SchemaValid(r) && r.sequence == |log| + 1
    requires log != [] ==> log[|log| - 1].epoch <= r.epoch
    ensures Consecutive(log + [r], 0, 0)
  {
    hide SchemaValid;
    var longer := log + [r];
    forall i | 0 <= i < |longer|
      ensures InOrder(longer[i], 0 + i, EpochBefore(longer, i, 0))
    {
      if i < |log| {
        assert InOrder(log[i], 0 + i, EpochBefore(log, i, 0));
      }
    }
  }

  lemma LatchKeepsStore(codec: Codec, core: Core, fate: MarkerFate)
    requires StoreInv(codec, core.store)
    ensures StoreInv(codec, Latched(core, fate).store)
  {
    hide Consecutive, Replay;
  }

  /** Appending either latches safe mode or leaves the log one record longer and nothing else changed. */
  lemma AppendKeepsCore(codec: Codec, core: Core, r: AuthorityRecord, env: Env, next: Authority)
    requires StoreInv(codec, core.store) && core.store.torn.None?
    requires Extends(core.store, r, next)
    ensures var o := AppendRecord(codec, core, r, env);
      && StoreInv(codec, o.core.store)
      && (o.reply.Err? ==> o.core.mem == core.mem.(safeMode := true))
      && (o.reply.Ok? ==> o.core.mem == core.mem.(logSeq := r.sequence)
                          && o.core.store == core.store.(log := core.store.log + [r])
                          && Replay(o.core.store.log) == Some(Some(next)))
  {
    hide StoreInv, SchemaValid, Replay, Extends;
    AppendKeepsStore(codec, core.store, r, env.appendFault, next);
    LatchKeepsStore(codec, core.(store := StoreAfterAppend(codec, core.store, r, env.appendFault)), env.marker);
  }

  lemma AdvanceKeepsStore(codec: Codec, core: Core, env: Env)
    requires core.store.log == [] && core.store.torn.None?
    ensures StoreInv(codec, AdvanceEpoch(core, env).core.store)
  {
    hide StoreInv;
    EmptyLogStore(codec, AdvanceEpoch(core, env).core.store);
  }

  lemma EmptyLogStore(codec: Codec, store: Store)
    requires store.log == [] && store.torn.None?
    ensures StoreInv(codec, store)
  {
  }

  lemma ArmedRecordReplays(sequence: U64, b: BoundSession, base: string, armedAt: Time, deadline: Time)
    requires ArmedRecord(sequence, b, base, armedAt, deadline).Some?
    ensures var r := ArmedRecord(sequence, b, base, armedAt, deadline).value;
      var next := Authority(b, base, armedAt, deadline, LeaseExpiryAt(armedAt, deadline).value, None, sequence, armedAt);
      SchemaValid(r) ==> ReplayRecord(None, r) == Some(Some(next))
  {
  }

  lemma UnarmedLogEmpty(codec: Codec, core: Core)
    requires CoreInv(codec, core) && !core.mem.safeMode
    ensures core.mem.armed.None? <==> core.store.log == []
  {
    hide Consecutive;
  }

  lemma EmptyReplay()
    ensures Replay([]) == Some(None)
  {
  }

  lemma ArmKeeps(codec: Codec, host: string, core: Core, req: LocalRequest, deadline: Time, env: Env)
    requires CoreInv(codec, core) && !core.mem.safeMode
    requires req.Arm?
    requires core.mem.binding.Some? ==> req.hostId == core.mem.binding.value.hostId && req.txId == core.mem.binding.value.txId
    ensures CoreInv(codec, HandleArm(codec, host, core, req, deadline, env).core)
    ensures HandleArm(codec, host, core, req, deadline, env).core.mem.binding == core.mem.binding
  {
    hide StoreInv, SchemaValid, ReplayRecord, Replay, ManifestValid;
    var advanced := AdvanceEpoch(core, env);
    LatchKeepsStore(codec, core, env.marker);
    UnarmedLogEmpty(codec, core);
    if core.mem.armed.None? && core.mem.binding.Some? {
      AdvanceKeepsStore(codec, core, env);
      LatchKeepsStore(codec, advanced.core, env.marker);
      var bound := core.mem.binding.value;
      if advanced.reply.Ok? && advanced.core.store.epochFile == HighWater(req.epoch) && bound.epoch == req.epoch
         && LeaseExpiryAt(env.now, deadline).Some? && core.mem.logSeq != U64_MAX {
        var b := BoundSession(req.hostId, req.txId, req.epoch, bound.leaseId, bound.workerGroupTag);
        var record := ArmedRecord(core.mem.logSeq + 1, b, req.base, env.now, deadline);
        if record.Some? {
          ArmedRecordReplays(core.mem.logSeq + 1, b, req.base, env.now, deadline);
          EmptyReplay();
          AppendKeepsCore(codec, advanced.core, record.value, env,
                          Authority(b, req.base, env.now, deadline, LeaseExpiryAt(env.now, deadline).value, None,
                                    core.mem.logSeq + 1, env.now));
        }
      }
    }
  }

  lemma RenewalRecordReplays(sequence: U64, a: Authority, now: Time)
    requires a.chosen.None? && a.lastActivity <= now < a.leaseExpiresAt
    requires LeaseExpiryAt(now, a.deadline).Some? && a.leaseExpiresAt < LeaseExpiryAt(now, a.deadline).value
    requires LeaseRenewedRecord(sequence, a.binding, now, a.deadline).Some?
    ensures var r := LeaseRenewedRecord(sequence, a.binding, now, a.deadline).value;
      var next := a.(leaseExpiresAt := LeaseExpiryAt(now, a.deadline).value, lastActivity := now, logSeq := sequence);
      SchemaValid(r) ==> ReplayRecord(Some(a), r) == Some(Some(next))
  {
  }

  lemma RenewalKeeps(codec: Codec, core: Core, txId: string, epoch: U64, leaseId: string, tag: WorkerGroupTag, env: Env)
    requires CoreInv(codec, core) && !core.mem.safeMode
    ensures CoreInv(codec, HandleLeaseRenewal(codec, core, txId, epoch, leaseId, tag, env).core)
    ensures HandleLeaseRenewal(codec, core, txId, epoch, leaseId, tag, env).core.mem.binding == core.mem.binding
  {
    hide StoreInv, SchemaValid, ReplayRecord, Replay;
    LatchKeepsStore(codec, core, env.marker);
    if core.mem.armed.Some? {
      var a := Replay(core.store.log).value.value;
      LastEpoch(codec, core.store, a);
      var expires := LeaseExpiryAt(env.now, a.deadline);
      if core.mem.lastClock <= env.now < a.leaseExpiresAt && a.chosen.None? && expires.Some?
         && a.leaseExpiresAt < expires.value && core.mem.logSeq != U64_MAX {
        var record := LeaseRenewedRecord(core.mem.logSeq + 1, a.binding, env.now, a.deadline);
        if record.Some? {
          RenewalRecordReplays(core.mem.logSeq + 1, a, env.now);
          AppendKeepsCore(codec, core, record.value, env,
                          a.(leaseExpiresAt := expires.value, lastActivity := env.now, logSeq := core.mem.logSeq + 1));
        }
      }
    }
  }

  /** The replayed authority carries the epoch of the records, hence the durable epoch. */
  lemma LastEpoch(codec: Codec, store: Store, a: Authority)
    requires StoreInv(codec, store) && Replay(store.log) == Some(Some(a))
    ensures store.epochFile == HighWater(a.binding.epoch)
  {
    ReplayedEpoch(store.log);
  }

  lemma {:induction false} ReplayedEpoch(log: seq<AuthorityRecord>)
    requires Replay(log).Some? && Replay(log).value.Some?
    ensures exists i :: 0 <= i < |log| && log[i].epoch == Replay(log).value.value.binding.epoch
  {
    var init, last := log[..|log| - 1], log[|log| - 1];
    if last.kind.Armed? {
      assert log[|log| - 1].epoch == Replay(log).value.value.binding.epoch;
    } else {
      ReplayedEpoch(init);
      var i :| 0 <= i < |init| && init[i].epoch == Replay(init).value.value.binding.epoch;
      assert log[i] == init[i];
    }
  }

  lemma DecisionRecordReplays(sequence: U64, a: Authority, kind: Kind)
    requires a.chosen.None? && IsBegin(kind)
    ensures var r := DecisionRecord(sequence, kind, a.binding);
      (SchemaValid(r) ==> ReplayRecord(Some(a), r) == Some(Some(a.(chosen := Some(kind), logSeq := sequence))))
  {
  }

  lemma DecisionKeeps(codec: Codec, core: Core, requestId: string, txId: string, epoch: U64, env: Env)
    requires CoreInv(codec, core) && !core.mem.safeMode
    ensures CoreInv(codec, HandleDecision(codec, core, requestId, txId, epoch, env).core)
    ensures HandleDecision(codec, core, requestId, txId, epoch, env).core.mem.binding == core.mem.binding
  {
    hide StoreInv, SchemaValid, ReplayRecord, Replay, RunFence, LogAccepted;
    LatchKeepsStore(codec, core, env.marker);
    if core.mem.armed.Some? && core.mem.armed.value.chosen.None? && env.invariants.Some? && core.mem.logSeq != U64_MAX {
      var a := Replay(core.store.log).value.value;
      LastEpoch(codec, core.store, a);
      var kind := DecisionKind(env.invariants.value);
      DecisionRecordReplays(core.mem.logSeq + 1, a, kind);
      AppendKeepsCore(codec, core, DecisionRecord(core.mem.logSeq + 1, kind, a.binding), env,
                      a.(chosen := Some(kind), logSeq := core.mem.logSeq + 1));
    }
  }

  lemma HandleKeeps(codec: Codec, host: string, core: Core, req: LocalRequest, env: Env)
    requires CoreInv(codec, core)
    requires core.mem.binding.Some? ==> req.hostId == core.mem.binding.value.hostId && req.txId == core.mem.binding.value.txId
    ensures CoreInv(codec, HandleRequest(codec, host, core, req, env).core)
    ensures HandleRequest(codec, host, core, req, env).core.mem.binding == core.mem.binding
  {
    hide StoreInv, Agrees, HandleArm, HandleLeaseRenewal, HandleDecision;
    if !core.mem.safeMode {
      match req {
        case Arm(_, _, _, _, _, secs, nanos, _, _) =>
          if RequestDeadline(secs, nanos).Ok? {
            ArmKeeps(codec, host, core, req, RequestDeadline(secs, nanos).value, env);
          }
        case ReportHealth(_, _, _, _) =>
        case RequestLeaseRenewal(_, _, tx, epoch, lease, tag, _) => RenewalKeeps(codec, core, tx, epoch, lease, tag, env);
        case Heartbeat(_, _, tx, epoch, lease, tag, _) => RenewalKeeps(codec, core, tx, epoch, lease, tag, env);
        case RequestDecision(id, _, tx, epoch) => DecisionKeeps(codec, core, id, tx, epoch, env);
      }
    }
  }

  lemma BindKeeps(codec: Codec, core: Core, bind: SessionBind, peerIsBroker: bool, capability: seq<Byte>, env: Env)
    requires CoreInv(codec, core)
    ensures var o := BindSession(core, bind, peerIsBroker, capability, env);
      && CoreInv(codec, o.core)
      && (core.mem.binding.Some? ==> o.core.mem.binding == core.mem.binding)
      && (o.reply.Ok? ==> SessionBound(o.core, Session(o.reply.value, 0)))
  {
    hide StoreInv, Replay;
    LatchKeepsStore(codec, core, env.marker);
  }

  lemma StartKeeps(codec: Codec, store: Store, isReopen: bool, env: StartEnv)
    requires StoreInv(codec, store)
    ensures var s := Startup(codec, store, isReopen, env);
      && StoreInv(codec, s.store)
      && (s.reply.Ok? ==> CoreInv(codec, Core(s.store, s.reply.value)))
  {
    hide Consecutive, MaxEpoch;
    ReplayedSequence(store.log);
  }

  /** The replayed authority remembers the sequence number of the last record that concerns it. */
  lemma {:induction false} ReplayedSequence(log: seq<AuthorityRecord>)
    requires Replay(log).Some?
    requires Consecutive(log, 0, 0)
    requires forall i :: 0 <= i < |log| ==> WriterKind(log[i].kind)
    ensures Replay(log).value.Some? ==> Replay(log).value.value.logSeq == |log|
  {
    if log != [] {
      assert InOrder(log[|log| - 1], 0 + (|log| - 1), EpochBefore(log, |log| - 1, 0));
    }
  }

  lemma StepKeeps(config: Config, sys: System, a: Action)
    requires SystemUsable(sys) && SystemInv(config.codec, sys)
    ensures SystemInv(config.codec, Step(config, sys, a).sys)
  {
    hide CoreInv, StoreInv, HandleRequest, BindSession, Startup;
    match a {
      case Stop =>
        StoreOfInv(config.codec, sys);
      case Start(isReopen, startEnv) =>
        if sys.Down? {
          StartKeeps(config.codec, sys.store, isReopen, startEnv);
        }
      case Connect(id, bind, peerIsBroker, capability, env) =>
        if sys.Up? {
          BindKeeps(config.codec, sys.core, bind, peerIsBroker, capability, env);
        }
      case Deliver(id, e, env) =>
        if sys.Up? && id in sys.sessions && DecodeRequest(sys.sessions[id], e).None? {
          HandleKeeps(config.codec, config.hostId, sys.core, e.request, env);
        }
    }
  }

  lemma StoreOfInv(codec: Codec, sys: System)
    requires SystemInv(codec, sys)
    ensures StoreInv(codec, StoreOf(sys))
  {
    hide StoreInv;
  }

  /** Every run from a fresh store, with faults and restarts anywhere, keeps the invariant. */
  lemma {:induction false} RunsKeepInvariant(config: Config, actions: seq<Action>)
    ensures SystemInv(config.codec, FromFresh(config, actions))
  {
    if actions != [] {
      var before := actions[..|actions| - 1];
      RunsKeepInvariant(config, before);
      StepKeeps(config, FromFresh(config, before), actions[|actions| - 1]);
    } else {
      EmptyLogStore(config.codec, FRESH_STORE);
    }
  }
}
