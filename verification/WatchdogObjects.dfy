/**
 The watchdog core and its sessions as the objects they are: handlers that update their fields
 and their durable store step by step. Every method is proved to do exactly what the state
 machine of WatchdogModel.dfy and WatchdogRuns.dfy does.
 */
module WatchdogObjects {
  import opened Bytes
  import opened Wrappers
  import opened AuthorityLog
  import opened DecisionLog
  import opened WatchdogModel
  import opened WatchdogRuns

  class SessionState {
    const established: SessionEstablished
    var lastCounter: U64

    function View(): Session
      reads this
    {
      Session(established, lastCounter)
    }

    constructor (established: SessionEstablished)
      ensures View() == Session(established, 0)
    {
      this.established := established;
      lastCounter := 0;
    }

    method Verify(capability: seq<Byte>, counter: U64, hostId: string, txId: string, epoch: U64)
      returns (refusal: Option<RpcError>)
      ensures forall id, req :: refusal ==
                VerifyAuthenticated(View(), RequestEnvelope(capability, counter, id, hostId, txId, epoch, req))
    {
      if capability != established.capability || counter == 0 || lastCounter == U64_MAX {
        return Some(WrongCapability);
      }
      if counter != lastCounter + 1 {
        return Some(if counter <= lastCounter then ReplayCounter else WrongCapability);
      }
      if hostId != established.hostId || txId != established.txId || epoch != established.epoch {
        return Some(WrongBinding);
      }
      return None;
    }

    method AdvanceCounter(counter: U64)
      modifies this
      ensures View() == Session(established, counter)
    {
      lastCounter := counter;
    }

    /** Checks an envelope; only an accepted one advances the counter. */
    method Decode(e: RequestEnvelope) returns (refusal: Option<RpcError>)
      modifies this
      ensures refusal == DecodeRequest(old(View()), e)
      ensures View() == if refusal.None? then Session(established, e.counter) else old(View())
    {
      refusal := Verify(e.capability, e.counter, e.hostId, e.txId, e.epoch);
      assert refusal == VerifyAuthenticated(View(), RequestEnvelope(e.capability, e.counter, e.requestId, e.hostId, e.txId, e.epoch, e.request));
      if refusal.Some? {
        return;
      }
      if e.requestId != e.request.requestId {
        return Some(WrongBinding);
      }
      if e.request.hostId != e.hostId || e.request.txId != e.txId {
        return Some(WrongBinding);
      }
      if e.request.epoch != e.epoch {
        return Some(WrongEpoch);
      }
      AdvanceCounter(e.counter);
    }
  }

  class WatchdogCore {
    const codec: Codec
    const hostId: string
    var safeMode: bool
    var binding: Option<BoundSession>
    var armed: Option<ArmedState>
    var logSeq: U64
    var lastClock: Time
    var store: Store
    var effects: seq<Effect>  // everything done to the outside, in order

    function View(): Core
      reads this
    {
      Core(store, Memory(safeMode, binding, armed, logSeq, lastClock))
    }

    /** What a call did, compared with its specification. */
    twostate predicate Did<R(!new)>(new o: Outcome<R>, new reply: Result<R, RpcError>)
      reads this
    {
      View() == o.core && effects == old(effects) + o.effects && reply == o.reply
    }

    constructor Resumed(codec: Codec, hostId: string, store: Store, mem: Memory)
      ensures View() == Core(store, mem) && effects == []
      ensures this.codec == codec && this.hostId == hostId
    {
      this.codec, this.hostId := codec, hostId;
      this.store := store;
      safeMode, binding, armed, logSeq, lastClock := mem.safeMode, mem.binding, mem.armed, mem.logSeq, mem.lastClock;
      effects := [];
    }

    // ----- Safe mode -----

    method LatchSafeMode(fate: MarkerFate)
      modifies this`safeMode, this`store
      ensures View() == Latched(old(View()), fate)
    {
      safeMode := true;
      if fate.stored {
        store := store.(marker := true);
      }
    }

    method EnterSafeMode(fate: MarkerFate) returns (error: RpcError)
      modifies this`safeMode, this`store
      ensures View() == Latched(old(View()), fate) && error == SafeModeError(fate)
    {
      LatchSafeMode(fate);
      error := if fate.failure == Some(MarkerNotDurable) then Durability else SafeModeActive;
    }

    // ----- Durable writes -----

    method AppendRecord(r: AuthorityRecord, env: Env) returns (reply: Result<(), RpcError>)
      requires store.torn.None?
      modifies this
      ensures Did(WatchdogModel.AppendRecord(codec, old(View()), r, env), reply)
    {
      if !SchemaValid(r) || |codec.encode(r)| >= U32_LIMIT || env.appendFault.LogUnopenable? {
        LatchSafeMode(env.marker);
        return Err(Durability);
      }
      if env.appendFault.LogWriteFails? {
        if env.appendFault.written > 0 {
          store := store.(torn := Some(TornFrame(r, env.appendFault.written)));
        }
        LatchSafeMode(env.marker);
        return Err(Durability);
      }
      store := store.(log := store.log + [r]);
      effects := effects + [Appended(r)];
      if env.appendFault.LogSyncFails? || env.appendFault.LogDirSyncFails? {
        LatchSafeMode(env.marker);
        return Err(Durability);
      }
      logSeq := r.sequence;
      return Ok(());
    }

    method AdvanceEpoch(env: Env) returns (reply: Result<(), RpcError>)
      modifies this
      ensures Did(WatchdogModel.AdvanceEpoch(old(View()), env), reply)
    {
      var fault := env.epochFault;
      if store.epochResidue || fault.EpochDirUnlistable? || fault.EpochDirUncreatable? || fault.EpochUnreadable?
         || !store.epochFile.HighWater? || store.epochFile.epoch == U64_MAX {
        var error := EnterSafeMode(env.marker);
        return Err(error);
      }
      var next := store.epochFile.epoch + 1;
      // the temporary file
      if fault.EpochTempWriteFails? {
        store := store.(epochResidue := fault.left);
        var error := EnterSafeMode(env.marker);
        return Err(error);
      }
      if fault.EpochTempSyncFails? {
        store := store.(epochResidue := true);
        LatchSafeMode(env.marker);
        return Err(Durability);
      }
      // its rename over the epoch file
      if fault.EpochRenameFails? && !fault.moved {
        store := store.(epochResidue := true);
        var error := EnterSafeMode(env.marker);
        return Err(error);
      }
      store := store.(epochFile := HighWater(next));
      effects := effects + [AdvancedEpoch(next)];
      if fault.EpochDirSyncFails? {
        LatchSafeMode(env.marker);
        return Err(Durability);
      }
      if fault.EpochRenameFails? || fault.EpochReadbackFails? {
        var error := EnterSafeMode(env.marker);
        return Err(error);
      }
      return Ok(());
    }

    // ----- Fencing -----

    method RunFence(f: FenceScript) returns (complete: bool)
      modifies this`effects
      ensures effects == old(effects) + WatchdogModel.RunFence(f).effects
      ensures complete == WatchdogModel.RunFence(f).complete
    {
      if !f.termDelivered {
        return false;
      }
      effects := effects + [Signalled(Term)];
      if !f.termWaited {
        return false;
      }
      effects := effects + [Waited, ObservedAlive(false, f.aliveAfterTerm)];
      assert effects == old(effects) + [Signalled(Term), Waited, ObservedAlive(false, f.aliveAfterTerm)];
      if f.aliveAfterTerm {
        if !f.killDelivered {
          return false;
        }
        effects := effects + [Signalled(Kill)];
        if !f.killWaited {
          return false;
        }
        effects := effects + [Waited, ObservedAlive(true, f.aliveAfterKill)];
        assert effects == old(effects) + ([Signalled(Term), Waited, ObservedAlive(false, true)]
                                          + [Signalled(Kill), Waited, ObservedAlive(true, f.aliveAfterKill)]);
        if f.aliveAfterKill {
          return false;
        }
      }
      if f.jobs.None? {
        return false;
      }
      effects := effects + [CountedJobs(f.jobs.value)];
      return f.jobs.value == 0;
    }

    // ----- Handlers -----

    method ValidateManifest(mandatory: seq<string>, additive: seq<string>) returns (valid: bool)
      ensures valid == ManifestValid(mandatory, additive)
    {
      if mandatory == [] || ROUTE_PRESENT !in mandatory {
        return false;
      }
      for i := 0 to |additive|
        invariant forall j :: 0 <= j < i ==> additive[j] in mandatory
      {
        if additive[i] !in mandatory {
          return false;
        }
      }
      return true;
    }

    method HandleArm(req: LocalRequest, deadline: Time, env: Env) returns (reply: Result<LocalResponse, RpcError>)
      requires req.Arm? && store.torn.None?
      modifies this
      ensures Did(WatchdogModel.HandleArm(codec, hostId, old(View()), req, deadline, env), reply)
    {
      hide SchemaValid, LeaseExpiryAt, FrameWritten, StoreAfterAppend, WatchdogModel.AdvanceEpoch, WatchdogModel.AppendRecord;
      if req.hostId != hostId {
        return Err(WrongBinding);
      }
      if armed.Some? {
        return Err(ConflictingRequest);
      }
      if env.observedBase != "" && env.observedBase != req.base {
        return Err(MovedBase);
      }
      var valid := ValidateManifest(req.mandatoryInvariants, req.additiveManifestChecks);
      if !valid {
        return Err(WeakenedMandatoryInvariant);
      }
      if !env.epochReadable || !store.epochFile.HighWater? || store.epochFile.epoch == U64_MAX {
        var error := EnterSafeMode(env.marker);
        return Err(error);
      }
      var successor := store.epochFile.epoch + 1;
      if binding.None? {
        return Err(WrongBinding);
      }
      var bound := binding.value;
      if req.epoch != bound.epoch || req.epoch != successor {
        return Err(WrongEpoch);
      }
      if deadline <= env.now {
        return Err(ExpiredDeadline);
      }
      var advanced := AdvanceEpoch(env);
      if advanced.Err? {
        return Err(advanced.error);
      }
      var expires := LeaseExpiryAt(env.now, deadline);
      if expires.None? {
        var error := EnterSafeMode(env.marker);
        return Err(error);
      }
      if logSeq == U64_MAX {
        return Err(SafeModeActive);
      }
      var b := BoundSession(req.hostId, req.txId, req.epoch, bound.leaseId, bound.workerGroupTag);
      var record := ArmedRecord(logSeq + 1, b, req.base, env.now, deadline);
      if record.None? {
        var error := EnterSafeMode(env.marker);
        return Err(error);
      }
      var appended := AppendRecord(record.value, env);
      if appended.Err? {
        return Err(appended.error);
      }
      armed := Some(ArmedState(req.hostId, req.txId, req.epoch, req.base, bound.leaseId, bound.workerGroupTag,
                               env.now, deadline, expires.value, None));
      lastClock := env.now;
      return Ok(ArmedResponse(req.requestId));
    }

    method HandleLeaseRenewal(txId: string, epoch: U64, leaseId: string, tag: WorkerGroupTag, env: Env)
      returns (reply: Result<(), RpcError>)
      requires store.torn.None?
      modifies this
      ensures Did(WatchdogModel.HandleLeaseRenewal(codec, old(View()), txId, epoch, leaseId, tag, env), reply)
    {
      hide SchemaValid, LeaseExpiryAt, FrameWritten, StoreAfterAppend, WatchdogModel.AppendRecord;
      if armed.None? || armed.value.txId != txId {
        return Err(UnknownTransaction);
      }
      var current := armed.value;
      if current.epoch != epoch {
        return Err(StaleEpoch);
      }
      if current.leaseId != leaseId || current.workerGroupTag != tag {
        return Err(WrongBinding);
      }
      if current.chosen.Some? {
        return Err(ConflictingRequest);
      }
      if env.now < lastClock {
        return Err(ClockRegression);
      }
      if env.now >= current.leaseExpiresAt || env.now > current.deadline {
        return Err(ExpiredDeadline);
      }
      var expires := LeaseExpiryAt(env.now, current.deadline);
      if expires.None? {
        var error := EnterSafeMode(env.marker);
        return Err(error);
      }
      if expires.value <= current.leaseExpiresAt {
        lastClock := env.now;
        return Ok(());
      }
      if logSeq == U64_MAX {
        return Err(SafeModeActive);
      }
      var record := LeaseRenewedRecord(logSeq + 1, BindingOfArmed(current), env.now, current.deadline);
      if record.None? {
        var error := EnterSafeMode(env.marker);
        return Err(error);
      }
      var appended := AppendRecord(record.value, env);
      if appended.Err? {
        return appended;
      }
      armed := Some(current.(leaseExpiresAt := expires.value));
      lastClock := env.now;
      return Ok(());
    }

    method HandleDecision(requestId: string, txId: string, epoch: U64, env: Env)
      returns (reply: Result<LocalResponse, RpcError>)
      requires store.torn.None?
      modifies this
      ensures Did(WatchdogModel.HandleDecision(codec, old(View()), requestId, txId, epoch, env), reply)
    {
      hide SchemaValid, FrameWritten, StoreAfterAppend, WatchdogModel.AppendRecord, WatchdogModel.RunFence, LogAccepted;
      if armed.None? || armed.value.txId != txId {
        return Err(UnknownTransaction);
      }
      var current := armed.value;
      if current.epoch != epoch {
        return Err(StaleEpoch);
      }
      if current.chosen.Some? {
        return Err(ConflictingRequest);
      }
      if !env.logReadable || !LogAccepted(codec, store) {
        var error := EnterSafeMode(env.marker);
        return Err(error);
      }
      if env.now < lastClock {
        return Err(ClockRegression);
      }
      if env.observedBase != "" && env.observedBase != current.base {
        return Err(MovedBase);
      }
      if env.now >= current.leaseExpiresAt {
        var complete := RunFence(env.fence);
        if !complete {
          var _ := EnterSafeMode(env.marker);
          return Err(FenceIncomplete);
        }
      }
      if env.now > current.deadline {
        return Err(ExpiredDeadline);
      }
      if env.invariants.None? {
        return Err(SafeModeActive);
      }
      if logSeq == U64_MAX {
        return Err(SafeModeActive);
      }
      var kind := DecisionKind(env.invariants.value);
      var appended := AppendRecord(DecisionRecord(logSeq + 1, kind, BindingOfArmed(current)), env);
      if appended.Err? {
        return Err(appended.error);
      }
      armed := Some(current.(chosen := Some(kind)));
      return Ok(AuthorityChosen(requestId, kind));
    }

    method Dispatch(req: LocalRequest, env: Env) returns (reply: Result<LocalResponse, RpcError>)
      requires !safeMode && store.torn.None?
      modifies this
      ensures Did(WatchdogModel.HandleRequest(codec, hostId, old(View()), req, env), reply)
    {
      hide WatchdogModel.HandleArm, WatchdogModel.HandleLeaseRenewal, WatchdogModel.HandleDecision;
      match req {
        case Arm(_, _, _, _, _, secs, nanos, _, _) =>
          var deadline := RequestDeadline(secs, nanos);
          if deadline.Err? {
            return Err(deadline.error);
          }
          reply := HandleArm(req, deadline.value, env);
        case ReportHealth(id, _, tx, _) =>
          if armed.None? || armed.value.txId != tx {
            return Err(UnknownTransaction);
          }
          return Ok(HealthAck(id));
        case RequestLeaseRenewal(id, _, tx, epoch, lease, tag, _) =>
          var renewed := HandleLeaseRenewal(tx, epoch, lease, tag, env);
          return if renewed.Ok? then Ok(LeaseRenewedResponse(id)) else Err(renewed.error);
        case Heartbeat(id, _, tx, epoch, lease, tag, _) =>
          var renewed := HandleLeaseRenewal(tx, epoch, lease, tag, env);
          return if renewed.Ok? then Ok(HeartbeatAck(id)) else Err(renewed.error);
        case RequestDecision(id, _, tx, epoch) =>
          reply := HandleDecision(id, tx, epoch, env);
      }
    }

    /** Serves a decoded request; a success writes the session counter once more. */
    method HandleRequest(req: LocalRequest, counter: U64, session: SessionState, env: Env)
      returns (reply: Result<LocalResponse, RpcError>)
      requires Usable(View())
      modifies this, session
      ensures Did(WatchdogModel.HandleRequest(codec, hostId, old(View()), req, env), reply)
      ensures session.View() == if reply.Ok? then Session(session.established, counter) else old(session.View())
    {
      hide WatchdogModel.HandleArm, WatchdogModel.HandleLeaseRenewal, WatchdogModel.HandleDecision;
      if safeMode {
        return Err(SafeModeActive);
      }
      reply := Dispatch(req, env);
      if reply.Ok? {
        session.AdvanceCounter(counter);
      }
    }

    /** One delivered envelope, as the server drives it: decode, then handle. */
    method Serve(e: RequestEnvelope, session: SessionState, env: Env) returns (reply: Result<LocalResponse, RpcError>)
      requires Usable(View())
      modifies this, session
      ensures var id := 0;
        var before := Up(old(View()), map[id := old(session.View())]);
        var moved := Step(Config(codec, hostId), before, Deliver(id, e, env));
        moved.sys == Up(View(), map[id := session.View()]) && effects == old(effects) + moved.effects
    {
      hide WatchdogModel.HandleRequest;
      var refusal := session.Decode(e);
      if refusal.Some? {
        return Err(refusal.value);
      }
      reply := HandleRequest(e.request, e.counter, session, env);
    }

    method Bind(bind: SessionBind, peerIsBroker: bool, capability: seq<Byte>, env: Env)
      returns (reply: Result<SessionEstablished, RpcError>)
      modifies this
      ensures Did(BindSession(old(View()), bind, peerIsBroker, capability, env), reply)
    {
      var epoch := bind.epoch;
      if binding.None? {
        if !env.epochReadable || !store.epochFile.HighWater? || store.epochFile.epoch == U64_MAX {
          var error := EnterSafeMode(env.marker);
          return Err(error);
        }
        epoch := store.epochFile.epoch + 1;
      }
      if safeMode {
        return Err(SafeModeActive);
      }
      if !peerIsBroker {
        return Err(WrongPeer);
      }
      var bound := BoundSession(bind.hostId, bind.txId, epoch, bind.leaseId, bind.workerGroupTag);
      if binding.Some? && binding.value != bound {
        return Err(StaleReconnect);
      }
      binding := Some(bound);
      return Ok(SessionEstablished(capability, bind.hostId, bind.txId, epoch));
    }
  }

  method LargestEpoch(records: seq<AuthorityRecord>) returns (largest: U64)
    ensures largest == MaxEpoch(records)
  {
    largest := 0;
    for i := 0 to |records|
      invariant largest == MaxEpoch(records[..i])
    {
      assert records[..i + 1][..i] == records[..i];
      if largest < records[i].epoch {
        largest := records[i].epoch;
      }
    }
    assert records[..|records|] == records;
  }

  /** Opening the store: the checks in order, then the replay. The store is returned as it is left. */
  method StartCore(codec: Codec, hostId: string, disk: Store, isReopen: bool, env: StartEnv)
    returns (left: Store, core: Option<WatchdogCore>, refusal: Option<StartupError>)
    ensures left == Startup(codec, disk, isReopen, env).store
    ensures Startup(codec, disk, isReopen, env).reply.Err? ==>
              core == None && refusal == Some(Startup(codec, disk, isReopen, env).reply.error)
    ensures Startup(codec, disk, isReopen, env).reply.Ok? ==>
              && refusal == None && core.Some? && fresh(core.value)
              && core.value.View() == Core(left, Startup(codec, disk, isReopen, env).reply.value)
              && core.value.codec == codec && core.value.hostId == hostId
  {
    hide LogAccepted, Replay;
    left, core, refusal := disk, None, None;
    if disk.marker {
      return left, None, Some(SafeModeAtStartup);
    }
    if env.topology.Unwritable? {
      if env.markerStored {
        left := left.(marker := true);
      }
      return left, None, Some(if env.markerFails then SafeModePersistUnavailable else Topology);
    }
    if !env.topology.Sound? {
      return left, None, Some(Topology);
    }
    if !env.logReadable || !LogAccepted(codec, disk) {
      return left, None, Some(SafeModeAtStartup);
    }
    var logEpoch := LargestEpoch(disk.log);
    if env.floor.None? {
      return left, None, Some(SafeModeAtStartup);
    }
    var readable := env.epochReadable && disk.epochFile.HighWater?;
    if isReopen || disk.log != [] || !disk.epochFile.Missing? {
      if !readable {
        return left, None, Some(EpochLogMismatch);
      }
      if disk.epochFile.epoch < env.floor.value {
        return left, None, Some(SafeModeAtStartup);
      }
      if isReopen || disk.log != [] {
        if disk.log != [] && disk.epochFile.epoch != logEpoch {
          return left, None, Some(EpochLogMismatch);
        }
        if disk.epochFile.epoch > 0 && disk.log == [] {
          return left, None, Some(EpochLogMismatch);
        }
      }
    } else {
      if env.epochDirFails {
        return left, None, Some(StartupDurability);
      }
      if env.firstEpochWrite.WriteFails? {
        left := left.(epochFile := FirstWriteLeaves(env.firstEpochWrite.left));
        return left, None, Some(StartupDurability);
      }
      left := left.(epochFile := HighWater(0));
      if env.firstEpochWrite.SyncFails? {
        return left, None, Some(StartupDurability);
      }
    }
    var replayed := Reconstruct(disk.log);
    if replayed.None? || |disk.log| > U64_MAX {
      return left, None, Some(SafeModeAtStartup);
    }
    var resumed := new WatchdogCore.Resumed(codec, hostId, left, MemoryOf(replayed.value, |disk.log|));
    core := Some(resumed);
  }
}
