/**
 The watchdog core as a state machine on values: durable store, volatile memory, the requests
 it serves, and everything its environment may answer, including where storage fails. The class
 in WatchdogObjects.dfy is proved to follow these functions.
 */
module WatchdogModel {
  import opened Bytes
  import opened Wrappers
  import opened AuthorityLog
  import opened DecisionLog

  datatype RpcError =
    | Durability | SafeModeActive | ReplayCounter | StaleReconnect | ConflictingRequest | WrongCapability
    | WrongPeer | MovedBase | WeakenedMandatoryInvariant | ExpiredDeadline | WrongEpoch | UnknownTransaction
    | StaleEpoch | WrongBinding | ClockRegression | FenceIncomplete
    | Panicked  // a deadline whose seconds overflow when its nanoseconds carry

  datatype StartupError = Topology | SafeModeAtStartup | SafeModePersistUnavailable | EpochLogMismatch | StartupDurability

  // ----- State -----

  datatype EpochFile = Missing | Malformed | HighWater(epoch: U64)

  /** A frame whose write stopped after `written` of its bytes. */
  datatype TornFrame = TornFrame(record: AuthorityRecord, written: nat)

  datatype Store = Store(
    log: seq<AuthorityRecord>,   // complete frames of the decision log
    torn: Option<TornFrame>,     // an incomplete frame after them
    epochFile: EpochFile,
    epochResidue: bool,          // a leftover temporary epoch file
    marker: bool)                // the durable safe-mode marker

  const FRESH_STORE := Store([], None, Missing, false, false)

  datatype ArmedState = ArmedState(
    hostId: string, txId: string, epoch: U64, base: string, leaseId: string, workerGroupTag: WorkerGroupTag,
    armedAt: Time, deadline: Time, leaseExpiresAt: Time, chosen: Option<Kind>)

  datatype Memory = Memory(
    safeMode: bool, binding: Option<BoundSession>, armed: Option<ArmedState>, logSeq: U64, lastClock: Time)

  datatype Core = Core(store: Store, mem: Memory)

  /** A log that ends in an incomplete frame is never written again: the write latched safe mode. */
  predicate Usable(core: Core) {
    core.mem.safeMode || core.store.torn.None?
  }

  function BindingOfArmed(a: ArmedState): BoundSession {
    BoundSession(a.hostId, a.txId, a.epoch, a.leaseId, a.workerGroupTag)
  }

  // ----- Requests and the environment of one call -----

  datatype LocalRequest =
    | Arm(requestId: string, hostId: string, txId: string, epoch: U64, base: string, deadlineSecs: U64, deadlineNanos: U32,
          mandatoryInvariants: seq<string>, additiveManifestChecks: seq<string>)
    | ReportHealth(requestId: string, hostId: string, txId: string, epoch: U64)
    | RequestLeaseRenewal(requestId: string, hostId: string, txId: string, epoch: U64, leaseId: string,
                          workerGroupTag: WorkerGroupTag, renewalSeq: U64)
    | Heartbeat(requestId: string, hostId: string, txId: string, epoch: U64, leaseId: string,
                workerGroupTag: WorkerGroupTag, heartbeatSeq: U64)
    | RequestDecision(requestId: string, hostId: string, txId: string, epoch: U64)

  datatype LocalResponse =
    | ArmedResponse(requestId: string)
    | HealthAck(requestId: string)
    | LeaseRenewedResponse(requestId: string)
    | HeartbeatAck(requestId: string)
    | AuthorityChosen(requestId: string, kind: Kind)

  /** Where advancing the epoch file first fails. */
  datatype EpochFault =
    | NoEpochFault
    | EpochDirUnlistable
    | EpochDirUncreatable
    | EpochUnreadable
    | EpochTempWriteFails(left: bool)   // whether a temporary file was left behind
    | EpochTempSyncFails
    | EpochRenameFails(moved: bool)     // whether the new file nevertheless took its place
    | EpochDirSyncFails
    | EpochReadbackFails

  /** Where appending to the decision log first fails. */
  datatype AppendFault =
    | NoAppendFault
    | LogUnopenable
    | LogWriteFails(written: nat)
    | LogSyncFails
    | LogDirSyncFails

  /** What became of persisting the safe-mode marker, should the call reach it. */
  datatype MarkerFate = MarkerFate(stored: bool, failure: Option<MarkerFailure>)
  datatype MarkerFailure = MarkerUnwritable | MarkerNotDurable

  datatype Signal = Term | Kill
  datatype FenceScript = FenceScript(
    termDelivered: bool, termWaited: bool, aliveAfterTerm: bool,
    killDelivered: bool, killWaited: bool, aliveAfterKill: bool, jobs: Option<U32>)

  datatype InvariantOutcome = Pass | Fail

  datatype Env = Env(
    now: Time, observedBase: string, epochReadable: bool, logReadable: bool,
    epochFault: EpochFault, appendFault: AppendFault, marker: MarkerFate,
    fence: FenceScript, invariants: Option<InvariantOutcome>)

  /** Externally visible effects, in the order they happen. */
  datatype Effect =
    | Signalled(signal: Signal)
    | Waited
    | ObservedAlive(afterKill: bool, alive: bool)
    | CountedJobs(jobs: U32)
    | AdvancedEpoch(epoch: U64)
    | Appended(record: AuthorityRecord)

  /** The outcome of one call. */
  datatype Outcome<+R> = Outcome(core: Core, effects: seq<Effect>, reply: Result<R, RpcError>)

  // ----- Safe mode -----

  function Latched(core: Core, fate: MarkerFate): Core {
    core.(store := core.store.(marker := core.store.marker || fate.stored), mem := core.mem.(safeMode := true))
  }

  /** The reply after `enter_safe_mode()?; Err(SafeModeActive)`. */
  function SafeModeError(fate: MarkerFate): RpcError {
    if fate.failure == Some(MarkerNotDurable) then Durability else SafeModeActive
  }

  function EnterSafeMode<R>(core: Core, effects: seq<Effect>, fate: MarkerFate): Outcome<R> {
    Outcome(Latched(core, fate), effects, Err(SafeModeError(fate)))
  }

  // ----- Durable writes -----

  /** Whether the bytes of the frame all reached the file. */
  predicate FrameWritten(codec: Codec, r: AuthorityRecord, fault: AppendFault) {
    SchemaValid(r) && |codec.encode(r)| < U32_LIMIT && (fault.NoAppendFault? || fault.LogSyncFails? || fault.LogDirSyncFails?)
  }

  function StoreAfterAppend(codec: Codec, store: Store, r: AuthorityRecord, fault: AppendFault): Store
    requires store.torn.None?
  {
    if FrameWritten(codec, r, fault) then store.(log := store.log + [r])
    else if SchemaValid(r) && |codec.encode(r)| < U32_LIMIT && fault.LogWriteFails? && 0 < fault.written then
      store.(torn := Some(TornFrame(r, fault.written)))
    else store
  }

  function AppendRecord(codec: Codec, core: Core, r: AuthorityRecord, env: Env): (o: Outcome<()>)
    requires core.store.torn.None?
    ensures Usable(o.core)
  {
    var written := FrameWritten(codec, r, env.appendFault);
    var core' := core.(store := StoreAfterAppend(codec, core.store, r, env.appendFault));
    var effects := if written then [Appended(r)] else [];
    if written && env.appendFault.NoAppendFault? then
      Outcome(core'.(mem := core'.mem.(logSeq := r.sequence)), effects, Ok(()))
    else Outcome(Latched(core', env.marker), effects, Err(Durability))
  }

  function ReadEpoch(store: Store, readable: bool): Option<U64> {
    if readable && store.epochFile.HighWater? then Some(store.epochFile.epoch) else None
  }

  function AdvanceEpoch(core: Core, env: Env): (o: Outcome<()>)
    ensures o.core.store.log == core.store.log && o.core.store.torn == core.store.torn
    ensures o.reply.Ok? ==> o.core.mem == core.mem
    ensures o.reply.Err? ==> o.core.mem == core.mem.(safeMode := true)
  {
    var store := core.store;
    if store.epochResidue || env.epochFault.EpochDirUnlistable? || env.epochFault.EpochDirUncreatable? then
      EnterSafeMode(core, [], env.marker)
    else
      match ReadEpoch(store, !env.epochFault.EpochUnreadable?)
      case None => EnterSafeMode(core, [], env.marker)
      case Some(current) =>
        if current == U64_MAX then EnterSafeMode(core, [], env.marker)
        else
          var next := HighWater(current + 1);
          var advanced := core.(store := store.(epochFile := next));
          var leftover := core.(store := store.(epochResidue := true));
          var effects := [AdvancedEpoch(current + 1)];
          match env.epochFault
          case EpochTempWriteFails(left) => EnterSafeMode(if left then leftover else core, [], env.marker)
          case EpochTempSyncFails => Outcome(Latched(leftover, env.marker), [], Err(Durability))
          case EpochRenameFails(moved) =>
            if moved then EnterSafeMode(advanced, effects, env.marker)
            else EnterSafeMode(leftover, [], env.marker)
          case EpochDirSyncFails => Outcome(Latched(advanced, env.marker), effects, Err(Durability))
          case EpochReadbackFails => EnterSafeMode(advanced, effects, env.marker)
          case _ => Outcome(advanced, effects, Ok(()))
  }

  // ----- Fencing -----

  datatype FenceResult = FenceResult(effects: seq<Effect>, complete: bool)

  function CountJobs(jobs: Option<U32>, before: seq<Effect>): FenceResult {
    if jobs.None? then FenceResult(before, false)
    else FenceResult(before + [CountedJobs(jobs.value)], jobs.value == 0)
  }

  function RunFence(f: FenceScript): FenceResult {
    if !f.termDelivered then FenceResult([], false)
    else if !f.termWaited then FenceResult([Signalled(Term)], false)
    else
      var afterTerm := [Signalled(Term), Waited, ObservedAlive(false, f.aliveAfterTerm)];
      if !f.aliveAfterTerm then CountJobs(f.jobs, afterTerm)
      else if !f.killDelivered then FenceResult(afterTerm, false)
      else if !f.killWaited then FenceResult(afterTerm + [Signalled(Kill)], false)
      else
        var afterKill := afterTerm + [Signalled(Kill), Waited, ObservedAlive(true, f.aliveAfterKill)];
        if f.aliveAfterKill then FenceResult(afterKill, false) else CountJobs(f.jobs, afterKill)
  }

  /** A fence that ran to its end: the group is confirmed gone and no job remains. */
  predicate CompleteFence(effects: seq<Effect>) {
    || effects == [Signalled(Term), Waited, ObservedAlive(false, false), CountedJobs(0)]
    || effects == [Signalled(Term), Waited, ObservedAlive(false, true),
                   Signalled(Kill), Waited, ObservedAlive(true, false), CountedJobs(0)]
  }

  // ----- Handlers -----

  const ROUTE_PRESENT := "route_present"

  predicate ManifestValid(mandatory: seq<string>, additive: seq<string>) {
    mandatory != [] && ROUTE_PRESENT in mandatory && forall c :: c in additive ==> c in mandatory
  }

  function Refuse<R>(core: Core, error: RpcError): Outcome<R> {
    Outcome(core, [], Err(error))
  }

  function HandleArm(codec: Codec, host: string, core: Core, req: LocalRequest, deadline: Time, env: Env)
    : (o: Outcome<LocalResponse>)
    requires req.Arm?
    requires core.store.torn.None?
    ensures Usable(o.core)
  {
    if req.hostId != host then Refuse(core, WrongBinding)
    else if core.mem.armed.Some? then Refuse(core, ConflictingRequest)
    else if env.observedBase != "" && env.observedBase != req.base then Refuse(core, MovedBase)
    else if !ManifestValid(req.mandatoryInvariants, req.additiveManifestChecks) then Refuse(core, WeakenedMandatoryInvariant)
    else
      match ReadEpoch(core.store, env.epochReadable)
      case None => EnterSafeMode(core, [], env.marker)
      case Some(durable) =>
        if durable == U64_MAX then EnterSafeMode(core, [], env.marker)
        else if core.mem.binding.None? then Refuse(core, WrongBinding)
        else
          var bound := core.mem.binding.value;
          if req.epoch != bound.epoch || req.epoch != durable + 1 then Refuse(core, WrongEpoch)
          else if deadline <= env.now then Refuse(core, ExpiredDeadline)
          else
            var advanced := AdvanceEpoch(core, env);
            if advanced.reply.Err? then Outcome(advanced.core, advanced.effects, Err(advanced.reply.error))
            else
              var b := BoundSession(req.hostId, req.txId, req.epoch, bound.leaseId, bound.workerGroupTag);
              var expires := LeaseExpiryAt(env.now, deadline);
              if expires.None? then EnterSafeMode(advanced.core, advanced.effects, env.marker)
              else if core.mem.logSeq == U64_MAX then Outcome(advanced.core, advanced.effects, Err(SafeModeActive))
              else
                match ArmedRecord(core.mem.logSeq + 1, b, req.base, env.now, deadline)
                case None => EnterSafeMode(advanced.core, advanced.effects, env.marker)
                case Some(r) =>
                  var appended := AppendRecord(codec, advanced.core, r, env);
                  var effects := advanced.effects + appended.effects;
                  if appended.reply.Err? then Outcome(appended.core, effects, Err(appended.reply.error))
                  else
                    var armed := ArmedState(req.hostId, req.txId, req.epoch, req.base, bound.leaseId, bound.workerGroupTag,
                                            env.now, deadline, expires.value, None);
                    Outcome(appended.core.(mem := appended.core.mem.(armed := Some(armed), lastClock := env.now)),
                            effects, Ok(ArmedResponse(req.requestId)))
  }

  function HandleLeaseRenewal(codec: Codec, core: Core, txId: string, epoch: U64, leaseId: string, tag: WorkerGroupTag, env: Env)
    : (o: Outcome<()>)
    requires core.store.torn.None?
    ensures Usable(o.core)
  {
    if core.mem.armed.None? || core.mem.armed.value.txId != txId then Refuse(core, UnknownTransaction)
    else
      var armed := core.mem.armed.value;
      if armed.epoch != epoch then Refuse(core, StaleEpoch)
      else if armed.leaseId != leaseId || armed.workerGroupTag != tag then Refuse(core, WrongBinding)
      else if armed.chosen.Some? then Refuse(core, ConflictingRequest)
      else if env.now < core.mem.lastClock then Refuse(core, ClockRegression)
      else if env.now >= armed.leaseExpiresAt || env.now > armed.deadline then Refuse(core, ExpiredDeadline)
      else
        var expires := LeaseExpiryAt(env.now, armed.deadline);
        if expires.None? then EnterSafeMode(core, [], env.marker)
        else if expires.value <= armed.leaseExpiresAt then
          Outcome(core.(mem := core.mem.(lastClock := env.now)), [], Ok(()))
        else if core.mem.logSeq == U64_MAX then Refuse(core, SafeModeActive)
        else
          match LeaseRenewedRecord(core.mem.logSeq + 1, BindingOfArmed(armed), env.now, armed.deadline)
          case None => EnterSafeMode(core, [], env.marker)
          case Some(r) =>
            var appended := AppendRecord(codec, core, r, env);
            if appended.reply.Err? then appended
            else
              Outcome(appended.core.(mem := appended.core.mem.(
                        armed := Some(armed.(leaseExpiresAt := expires.value)), lastClock := env.now)),
                      appended.effects, Ok(()))
  }

  /** The store's bytes as the strict reader judges them, at the level of records. */
  predicate LogAccepted(codec: Codec, store: Store) {
    && store.torn.None?
    && (forall i :: 0 <= i < |store.log| ==> codec.Fits(store.log[i]))
    && (forall i :: 0 <= i < |store.log| ==> InOrder(store.log[i], i, EpochBefore(store.log, i, 0)))
  }

  /** The decision log is a sequence of frames and at most one proper prefix of a frame. */
  ghost predicate Framed(codec: Codec, store: Store) {
    && AllFramable(codec, store.log)
    && (store.torn.Some? ==> codec.Framable(store.torn.value.record)
                             && 0 < store.torn.value.written < |Frame(codec, store.torn.value.record)|)
  }

  ghost function LogBytes(codec: Codec, store: Store): seq<Byte>
    requires Framed(codec, store)
  {
    FrameAll(codec, store.log) +
    (if store.torn.None? then [] else Frame(codec, store.torn.value.record)[..store.torn.value.written])
  }

  /** The record-level judgement is the strict reader's own, byte for byte. */
  lemma LogAcceptedIsReader(codec: Codec, store: Store)
    requires codec.Faithful()
    requires Framed(codec, store)
    ensures ReadFrom(codec, LogBytes(codec, store), 0, 0) ==
            if LogAccepted(codec, store) then Some(store.log) else None
  {
    if store.torn.None? {
      ReadExactly(codec, store.log, [], 0, 0);
      assert LogAccepted(codec, store) <==> AllFit(codec, store.log) && Consecutive(store.log, 0, 0);
    } else {
      var t := store.torn.value;
      TruncatedFrameRefused(codec.encode(t.record), t.written);
      ReadExactly(codec, store.log, Frame(codec, t.record)[..t.written], 0, 0);
    }
  }

  function DecisionKind(o: InvariantOutcome): Kind {
    match o case Pass => BeginCommit case Fail => BeginRevert
  }

  function HandleDecision(codec: Codec, core: Core, requestId: string, txId: string, epoch: U64, env: Env)
    : (o: Outcome<LocalResponse>)
    requires core.store.torn.None?
    ensures Usable(o.core)
  {
    if core.mem.armed.None? || core.mem.armed.value.txId != txId then Refuse(core, UnknownTransaction)
    else
      var armed := core.mem.armed.value;
      if armed.epoch != epoch then Refuse(core, StaleEpoch)
      else if armed.chosen.Some? then Refuse(core, ConflictingRequest)
      else if !env.logReadable || !LogAccepted(codec, core.store) then EnterSafeMode(core, [], env.marker)
      else if env.now < core.mem.lastClock then Refuse(core, ClockRegression)
      else if env.observedBase != "" && env.observedBase != armed.base then Refuse(core, MovedBase)
      else
        var expired := env.now >= armed.leaseExpiresAt;
        var fence := if expired then RunFence(env.fence) else FenceResult([], true);
        if !fence.complete then Outcome(Latched(core, env.marker), fence.effects, Err(FenceIncomplete))
        else if env.now > armed.deadline then Outcome(core, fence.effects, Err(ExpiredDeadline))
        else if env.invariants.None? then Outcome(core, fence.effects, Err(SafeModeActive))
        else if core.mem.logSeq == U64_MAX then Outcome(core, fence.effects, Err(SafeModeActive))
        else
          var kind := DecisionKind(env.invariants.value);
          var appended := AppendRecord(codec, core, DecisionRecord(core.mem.logSeq + 1, kind, BindingOfArmed(armed)), env);
          var effects := fence.effects + appended.effects;
          if appended.reply.Err? then Outcome(appended.core, effects, Err(appended.reply.error))
          else
            Outcome(appended.core.(mem := appended.core.mem.(armed := Some(armed.(chosen := Some(kind))))),
                    effects, Ok(AuthorityChosen(requestId, kind)))
  }

  /** The deadline of an Arm request: seconds and nanoseconds, with the nanoseconds' carry. */
  function RequestDeadline(secs: U64, nanos: U32): Result<Time, RpcError> {
    if secs + nanos / NANOS_PER_SEC > U64_MAX then Err(Panicked)
    else match CheckedAdd(0, secs * NANOS_PER_SEC + nanos)
      case None => Err(ExpiredDeadline)
      case Some(t) => Ok(t)
  }

  function MapReply<R, S>(o: Outcome<R>, response: S): Outcome<S> {
    Outcome(o.core, o.effects, if o.reply.Ok? then Ok(response) else Err(o.reply.error))
  }

  /** `handle_request` up to the session counter: the safe-mode gate, then dispatch. */
  function HandleRequest(codec: Codec, host: string, core: Core, req: LocalRequest, env: Env): (o: Outcome<LocalResponse>)
    requires Usable(core)
    ensures Usable(o.core)
  {
    if core.mem.safeMode then Refuse(core, SafeModeActive)
    else match req
      case Arm(_, _, _, _, _, secs, nanos, _, _) =>
        var deadline := RequestDeadline(secs, nanos);
        if deadline.Err? then Refuse(core, deadline.error) else HandleArm(codec, host, core, req, deadline.value, env)
      case ReportHealth(id, _, tx, _) =>
        if core.mem.armed.None? || core.mem.armed.value.txId != tx then Refuse(core, UnknownTransaction)
        else Outcome(core, [], Ok(HealthAck(id)))
      case RequestLeaseRenewal(id, _, tx, epoch, lease, tag, _) =>
        MapReply(HandleLeaseRenewal(codec, core, tx, epoch, lease, tag, env), LeaseRenewedResponse(id))
      case Heartbeat(id, _, tx, epoch, lease, tag, _) =>
        MapReply(HandleLeaseRenewal(codec, core, tx, epoch, lease, tag, env), HeartbeatAck(id))
      case RequestDecision(id, _, tx, epoch) => HandleDecision(codec, core, id, tx, epoch, env)
  }

  // ----- Session binding -----

  datatype SessionBind = SessionBind(hostId: string, txId: string, epoch: U64, leaseId: string,
                                     workerGroupTag: WorkerGroupTag, clientNonce: string)

  datatype SessionEstablished = SessionEstablished(capability: seq<Byte>, hostId: string, txId: string, epoch: U64)

  /** `bind_with_stream_cred`: issue the epoch when nothing is bound yet, then match the binding. */
  function BindSession(core: Core, bind: SessionBind, peerIsBroker: bool, capability: seq<Byte>, env: Env)
    : Outcome<SessionEstablished>
  {
    if core.mem.binding.None? && (ReadEpoch(core.store, env.epochReadable).None?
                                  || ReadEpoch(core.store, env.epochReadable) == Some(U64_MAX)) then
      EnterSafeMode(core, [], env.marker)
    else
      var epoch := if core.mem.binding.Some? then bind.epoch else ReadEpoch(core.store, env.epochReadable).value + 1;
      var bound := BoundSession(bind.hostId, bind.txId, epoch, bind.leaseId, bind.workerGroupTag);
      if core.mem.safeMode then Refuse(core, SafeModeActive)
      else if !peerIsBroker then Refuse(core, WrongPeer)
      else if core.mem.binding.Some? && core.mem.binding.value != bound then Refuse(core, StaleReconnect)
      else
        Outcome(core.(mem := core.mem.(binding := Some(bound))), [],
                Ok(SessionEstablished(capability, bind.hostId, bind.txId, epoch)))
  }

  // ----- Startup -----

  datatype Topology = Sound | StoreUnavailable | Unwritable | OtherTopologyError

  /** What startup meets: the topology probe, read failures, the external floor, a first epoch write. */
  datatype StartEnv = StartEnv(
    topology: Topology, markerStored: bool, markerFails: bool,
    logReadable: bool, epochReadable: bool, floor: Option<U64>, epochDirFails: bool, firstEpochWrite: FirstEpochWrite)

  datatype FirstEpochWrite = Written | WriteFails(left: EpochFile) | SyncFails

  datatype Started = Started(store: Store, reply: Result<Memory, StartupError>)

  function MemoryOf(active: Option<Authority>, logSeq: U64): Memory {
    match active
    case None => Memory(false, None, None, logSeq, 0)
    case Some(a) =>
      var b := a.binding;
      var armed := ArmedState(b.hostId, b.txId, b.epoch, a.base, b.leaseId, b.workerGroupTag,
                              a.armedAt, a.deadline, a.leaseExpiresAt, a.chosen);
      Memory(false, Some(b), Some(armed), logSeq, a.lastActivity)
  }

  /** The largest epoch of a list of records. */
  function MaxEpoch(records: seq<AuthorityRecord>): U64 {
    if records == [] then 0
    else
      var before := MaxEpoch(records[..|records| - 1]);
      if before < records[|records| - 1].epoch then records[|records| - 1].epoch else before
  }

  function Startup(codec: Codec, store: Store, isReopen: bool, env: StartEnv): Started {
    if store.marker then Started(store, Err(SafeModeAtStartup))
    else if !env.topology.Sound? then
      if env.topology.Unwritable? then
        Started(store.(marker := store.marker || env.markerStored),
                Err(if env.markerFails then SafeModePersistUnavailable else Topology))
      else Started(store, Err(Topology))
    else if !env.logReadable || !LogAccepted(codec, store) then Started(store, Err(SafeModeAtStartup))
    else if env.floor.None? then Started(store, Err(SafeModeAtStartup))
    else
      var epoch := ReadEpoch(store, env.epochReadable);
      if isReopen || store.log != [] then
        if epoch.None? then Started(store, Err(EpochLogMismatch))
        else if epoch.value < env.floor.value then Started(store, Err(SafeModeAtStartup))
        else if store.log != [] && epoch.value != MaxEpoch(store.log) then Started(store, Err(EpochLogMismatch))
        else if epoch.value > 0 && store.log == [] then Started(store, Err(EpochLogMismatch))
        else Resume(store)
      else if !store.epochFile.Missing? then
        if epoch.None? then Started(store, Err(EpochLogMismatch))
        else if epoch.value < env.floor.value then Started(store, Err(SafeModeAtStartup))
        else Resume(store)
      else if env.epochDirFails then Started(store, Err(StartupDurability))
      else match env.firstEpochWrite
        case WriteFails(left) => Started(store.(epochFile := FirstWriteLeaves(left)), Err(StartupDurability))
        case SyncFails => Started(store.(epochFile := HighWater(0)), Err(StartupDurability))
        case Written => Resume(store.(epochFile := HighWater(0)))
  }

  /** A failed first write leaves no file, an incomplete one, or the complete zero. */
  function FirstWriteLeaves(left: EpochFile): EpochFile {
    if left.HighWater? then HighWater(0) else left
  }

  /** `reopen_state`: replay the log into memory. */
  function Resume(store: Store): Started {
    match Replay(store.log)
    case None => Started(store, Err(SafeModeAtStartup))
    case Some(active) =>
      if |store.log| > U64_MAX then Started(store, Err(SafeModeAtStartup))
      else Started(store, Ok(MemoryOf(active, |store.log|)))
  }
}
