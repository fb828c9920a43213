/** What every run of the watchdog guarantees. */
module WatchdogTheorems {
  import opened Bytes
  import opened Wrappers
  import opened AuthorityLog
  import opened DecisionLog
  import opened WatchdogModel
  import opened WatchdogRuns

  // ----- Writer and reader agree -----

  /**
   Outside safe mode the memory is the replay of the durable log, with the clock at or after the
   replayed last activity; and when every record is within the reader's size limit, the strict
   reader accepts the bytes of the log and returns exactly those records.
   */
  lemma MemoryIsReplay(config: Config, actions: seq<Action>)
    ensures var sys := FromFresh(config, actions);
      sys.Up? && !sys.core.mem.safeMode ==>
        var store, mem := sys.core.store, sys.core.mem;
        && Replay(store.log).Some?
        && var replayed := MemoryOf(Replay(store.log).value, mem.logSeq);
        && mem.logSeq == |store.log|
        && mem.armed == replayed.armed
        && (replayed.armed.Some? ==> mem.binding == replayed.binding && replayed.lastClock <= mem.lastClock)
        && store.torn.None?
        && (config.codec.Faithful() && AllFit(config.codec, store.log) ==>
              ReadFrom(config.codec, LogBytes(config.codec, store), 0, 0) == Some(store.log))
  {
    RunsKeepInvariant(config, actions);
    var sys := FromFresh(config, actions);
    if sys.Up? && !sys.core.mem.safeMode && config.codec.Faithful() && AllFit(config.codec, sys.core.store.log) {
      LogAcceptedIsReader(config.codec, sys.core.store);
    }
  }

  /**
   Stopping an armed process outside safe mode and starting it again, either way, gives back
   exactly its authority if and only if every record is within the reader's size limit, which the
   writer does not check, and the external floor is not above the durable epoch.
   */
  lemma RestartRestoresAuthority(config: Config, actions: seq<Action>, isReopen: bool, env: StartEnv)
    requires env.topology.Sound? && env.logReadable && env.epochReadable && env.floor.Some?
    ensures var sys := FromFresh(config, actions);
      sys.Up? && !sys.core.mem.safeMode && sys.core.mem.armed.Some? ==>
        var s := Startup(config.codec, sys.core.store, isReopen, env);
        && s.store == sys.core.store
        && (s.reply.Ok? <==> AllFit(config.codec, sys.core.store.log) && env.floor.value <= sys.core.mem.armed.value.epoch)
        && (s.reply.Ok? ==> && s.reply.value.armed == sys.core.mem.armed
                            && s.reply.value.binding == sys.core.mem.binding
                            && s.reply.value.logSeq == sys.core.mem.logSeq
                            && s.reply.value.lastClock <= sys.core.mem.lastClock)
  {
    hide StoreInv, Agrees, Startup;
    RunsKeepInvariant(config, actions);
    var sys := FromFresh(config, actions);
    if sys.Up? && !sys.core.mem.safeMode && sys.core.mem.armed.Some? {
      if AllFit(config.codec, sys.core.store.log) {
        RestartArmed(config.codec, sys.core, isReopen, env);
      } else {
        OversizeRecordRefused(config.codec, sys.core.store, isReopen, env);
      }
    }
  }

  lemma OversizeRecordRefused(codec: Codec, store: Store, isReopen: bool, env: StartEnv)
    requires env.topology.Sound? && !AllFit(codec, store.log)
    ensures Startup(codec, store, isReopen, env) == Started(store, Err(SafeModeAtStartup))
  {
    hide Replay, Consecutive;
  }

  lemma RestartArmed(codec: Codec, core: Core, isReopen: bool, env: StartEnv)
    requires CoreInv(codec, core) && !core.mem.safeMode && core.mem.armed.Some?
    requires env.topology.Sound? && env.logReadable && env.epochReadable && env.floor.Some?
    requires AllFit(codec, core.store.log)
    ensures var s := Startup(codec, core.store, isReopen, env);
      && s.store == core.store
      && (s.reply.Ok? <==> env.floor.value <= core.mem.armed.value.epoch)
      && (s.reply.Ok? ==> && s.reply.value.armed == core.mem.armed
                          && s.reply.value.binding == core.mem.binding
                          && s.reply.value.logSeq == core.mem.logSeq
                          && s.reply.value.lastClock <= core.mem.lastClock)
  {
    hide Replay;
    var store := core.store;
    LastEpoch(codec, store, Replay(store.log).value.value);
    MaxEpochOfLog(store.log, core.mem.armed.value.epoch);
  }

  lemma {:induction false} MaxEpochOfLog(log: seq<AuthorityRecord>, epoch: U64)
    requires forall i :: 0 <= i < |log| ==> log[i].epoch == epoch
    ensures log != [] ==> MaxEpoch(log) == epoch
  {
    if log != [] {
      MaxEpochOfLog(log[..|log| - 1], epoch);
    }
  }

  // ----- The shape of every log -----

  /** Nothing; or one Armed, then renewals, then at most one decision, all for one binding. */
  ghost predicate Shape(log: seq<AuthorityRecord>) {
    log != [] ==>
      && log[0].kind.Armed? && HasBinding(log[0])
      && (forall i :: 0 < i < |log| ==> log[i].kind.LeaseRenewed? || IsBegin(log[i].kind))
      && (forall i :: 0 <= i < |log| - 1 ==> !IsBegin(log[i].kind))
      && (forall i :: 0 <= i < |log| ==> HasBinding(log[i]) && BindingOf(log[i]) == BindingOf(log[0]))
  }

  lemma {:induction false} ReplayedShape(log: seq<AuthorityRecord>)
    requires Replay(log).Some?
    requires forall i :: 0 <= i < |log| ==> WriterKind(log[i].kind)
    ensures Shape(log)
    ensures log != [] ==> Replay(log).value.Some?
                          && Replay(log).value.value.binding == BindingOf(log[0])
                          && (Replay(log).value.value.chosen.Some? <==> IsBegin(log[|log| - 1].kind))
  {
    hide ReplayRecord, BindingOf, HasBinding;
    if log != [] {
      var init, last := log[..|log| - 1], log[|log| - 1];
      ReplayedShape(init);
      ReplayStepFacts(Replay(init).value, last);
      assert forall i :: 0 <= i < |init| ==> log[i] == init[i];
    }
  }

  /** A replayed record opens the authority or continues the undecided one of its own binding. */
  lemma ReplayStepFacts(active: Option<Authority>, r: AuthorityRecord)
    requires WriterKind(r.kind) && ReplayRecord(active, r).Some?
    ensures HasBinding(r)
    ensures active.None? <==> r.kind.Armed?
    ensures active.Some? ==> active.value.chosen.None? && active.value.binding == BindingOf(r)
    ensures var next := ReplayRecord(active, r).value;
      next.Some? && next.value.binding == BindingOf(r) && (next.value.chosen.Some? <==> IsBegin(r.kind))
  {
  }

  /** Every log of every run, however many faults and restarts it saw, has the shape. */
  lemma LogsHaveShape(config: Config, actions: seq<Action>)
    ensures Shape(StoreOf(FromFresh(config, actions)).log)
  {
    RunsKeepInvariant(config, actions);
    StoreOfInv(config.codec, FromFresh(config, actions));
    ReplayedShape(StoreOf(FromFresh(config, actions)).log);
  }

  /** A log never holds two decisions, so never both a commit and a revert. */
  lemma OneDecision(config: Config, actions: seq<Action>, i: nat, j: nat)
    ensures var log := StoreOf(FromFresh(config, actions)).log;
      i < |log| && j < |log| && IsBegin(log[i].kind) && IsBegin(log[j].kind) ==> i == j
  {
    LogsHaveShape(config, actions);
  }

  // ----- What one step may do to the store -----

  ghost predicate EpochKeptOrAdvanced(before: EpochFile, after: EpochFile, arming: bool) {
    || after == before
    || (arming && before.HighWater? && after.HighWater? && after.epoch == before.epoch + 1)
    || (!arming && before.Missing? && (after.HighWater? ==> after.epoch == 0))
  }

  ghost predicate StoreMoves(before: Store, after: Store, arming: bool) {
    && before.log <= after.log
    && EpochKeptOrAdvanced(before.epochFile, after.epochFile, arming)
  }

  lemma StepMovesStore(config: Config, sys: System, a: Action)
    requires SystemUsable(sys)
    ensures StoreMoves(StoreOf(sys), StoreOf(Step(config, sys, a).sys), a.Deliver? && a.envelope.request.Arm?)
  {
    match a {
      case Stop =>
      case Start(isReopen, startEnv) =>
      case Connect(id, bind, peerIsBroker, capability, env) =>
      case Deliver(id, e, env) =>
        if sys.Up? && id in sys.sessions && DecodeRequest(sys.sessions[id], e).None? {
          HandleMovesStore(config.codec, config.hostId, sys.core, e.request, env);
        }
    }
  }

  lemma HandleMovesStore(codec: Codec, host: string, core: Core, req: LocalRequest, env: Env)
    requires Usable(core)
    ensures StoreMoves(core.store, HandleRequest(codec, host, core, req, env).core.store, req.Arm?)
  {
    hide HandleArm, HandleLeaseRenewal, HandleDecision;
    if !core.mem.safeMode {
      match req {
        case Arm(_, _, _, _, _, secs, nanos, _, _) =>
          if RequestDeadline(secs, nanos).Ok? {
            ArmMovesStore(codec, host, core, req, RequestDeadline(secs, nanos).value, env);
          }
        case ReportHealth(_, _, _, _) =>
        case RequestLeaseRenewal(_, _, tx, epoch, lease, tag, _) => RenewalMovesStore(codec, core, tx, epoch, lease, tag, env);
        case Heartbeat(_, _, tx, epoch, lease, tag, _) => RenewalMovesStore(codec, core, tx, epoch, lease, tag, env);
        case RequestDecision(id, _, tx, epoch) => DecisionMovesStore(codec, core, id, tx, epoch, env);
      }
    }
  }

  lemma AppendMovesStore(codec: Codec, core: Core, r: AuthorityRecord, env: Env)
    requires core.store.torn.None?
    ensures StoreMoves(core.store, AppendRecord(codec, core, r, env).core.store, false)
  {
    hide SchemaValid;
  }

  lemma ArmMovesStore(codec: Codec, host: string, core: Core, req: LocalRequest, deadline: Time, env: Env)
    requires core.store.torn.None? && req.Arm?
    ensures StoreMoves(core.store, HandleArm(codec, host, core, req, deadline, env).core.store, true)
  {
    hide ManifestValid, AppendRecord, LeaseExpiryAt, ArmedRecord;
    var advanced := AdvanceEpoch(core, env);
    assert StoreMoves(core.store, advanced.core.store, true);
    if core.mem.binding.Some? && core.mem.logSeq != U64_MAX && advanced.reply.Ok? {
      var bound := core.mem.binding.value;
      var r := ArmedRecord(core.mem.logSeq + 1, BoundSession(req.hostId, req.txId, req.epoch, bound.leaseId, bound.workerGroupTag),
                           req.base, env.now, deadline);
      if r.Some? {
        AppendMovesStore(codec, advanced.core, r.value, env);
      }
    }
  }

  lemma RenewalMovesStore(codec: Codec, core: Core, txId: string, epoch: U64, leaseId: string, tag: WorkerGroupTag, env: Env)
    requires core.store.torn.None?
    ensures StoreMoves(core.store, HandleLeaseRenewal(codec, core, txId, epoch, leaseId, tag, env).core.store, false)
  {
    hide AppendRecord, LeaseExpiryAt, LeaseRenewedRecord;
    if core.mem.armed.Some? && core.mem.logSeq != U64_MAX {
      var armed := core.mem.armed.value;
      var r := LeaseRenewedRecord(core.mem.logSeq + 1, BindingOfArmed(armed), env.now, armed.deadline);
      if r.Some? {
        AppendMovesStore(codec, core, r.value, env);
      }
    }
  }

  lemma DecisionMovesStore(codec: Codec, core: Core, requestId: string, txId: string, epoch: U64, env: Env)
    requires core.store.torn.None?
    ensures StoreMoves(core.store, HandleDecision(codec, core, requestId, txId, epoch, env).core.store, false)
  {
    hide AppendRecord, LogAccepted, RunFence;
    if core.mem.armed.Some? && core.mem.logSeq != U64_MAX && env.invariants.Some? {
      AppendMovesStore(codec, core, DecisionRecord(core.mem.logSeq + 1, DecisionKind(env.invariants.value),
                                                   BindingOfArmed(core.mem.armed.value)), env);
    }
  }

  /** The log only grows. */
  lemma {:induction false} LogOnlyGrows(config: Config, sys: System, actions: seq<Action>)
    requires SystemUsable(sys)
    ensures StoreOf(sys).log <= StoreOf(Run(config, sys, actions)).log
  {
    if actions != [] {
      var before := actions[..|actions| - 1];
      LogOnlyGrows(config, sys, before);
      StepMovesStore(config, Run(config, sys, before), actions[|actions| - 1]);
    }
  }

  lemma {:induction false} RunSplits(config: Config, sys: System, first: seq<Action>, second: seq<Action>)
    requires SystemUsable(sys)
    ensures Run(config, sys, first + second) == Run(config, Run(config, sys, first), second)
  {
    hide Step;
    if second == [] {
      assert first + second == first;
    } else {
      var init := second[..|second| - 1];
      RunSplits(config, sys, first, init);
      assert (first + second)[..|first + second| - 1] == first + init;
    }
  }

  /** A decision, once in the log, is the last word: no continuation of the run changes the log. */
  lemma DecisionIsFinal(config: Config, actions: seq<Action>, later: seq<Action>, i: nat)
    requires i < |StoreOf(FromFresh(config, actions)).log|
    requires IsBegin(StoreOf(FromFresh(config, actions)).log[i].kind)
    ensures StoreOf(FromFresh(config, actions + later)).log == StoreOf(FromFresh(config, actions)).log
  {
    RunSplits(config, Down(FRESH_STORE), actions, later);
    LogOnlyGrows(config, FromFresh(config, actions), later);
    LogsHaveShape(config, actions);
    LogsHaveShape(config, actions + later);
    var early, late := StoreOf(FromFresh(config, actions)).log, StoreOf(FromFresh(config, actions + later)).log;
    assert late[i] == early[i];
  }

  // ----- Epochs -----

  /** The durable epoch never decreases, and never disappears. */
  lemma {:induction false} EpochNeverDecreases(config: Config, sys: System, actions: seq<Action>)
    requires SystemUsable(sys)
    requires StoreOf(sys).epochFile.HighWater?
    ensures var after := StoreOf(Run(config, sys, actions)).epochFile;
      after.HighWater? && StoreOf(sys).epochFile.epoch <= after.epoch
  {
    if actions != [] {
      var before := actions[..|actions| - 1];
      EpochNeverDecreases(config, sys, before);
      StepMovesStore(config, Run(config, sys, before), actions[|actions| - 1]);
    }
  }

  /** Whenever the log holds a record, the durable epoch is the epoch of all its records. */
  lemma EpochIsLogEpoch(config: Config, actions: seq<Action>)
    ensures var store := StoreOf(FromFresh(config, actions));
      store.log != [] ==> store.epochFile == HighWater(MaxEpoch(store.log))
  {
    RunsKeepInvariant(config, actions);
    StoreOfInv(config.codec, FromFresh(config, actions));
    var store := StoreOf(FromFresh(config, actions));
    if store.log != [] {
      MaxEpochOfLog(store.log, store.log[0].epoch);
    }
  }

  // ----- Leases -----

  /** The instant a record reports activity at, and the expiry it grants. */
  function ActivityOf(r: AuthorityRecord): Option<Time> {
    TimeField(if r.kind.Armed? then r.armedAt else r.renewedAt)
  }

  lemma {:induction false} ReplayedLease(log: seq<AuthorityRecord>)
    requires Replay(log).Some? && Replay(log).value.Some?
    requires forall i :: 0 <= i < |log| ==> SchemaValid(log[i]) && WriterKind(log[i].kind)
    ensures var a := Replay(log).value.value;
      && LeaseExpiryAt(a.lastActivity, a.deadline) == Some(a.leaseExpiresAt)
      && a.armedAt <= a.lastActivity
      && (a.chosen.None? ==> ActivityOf(log[|log| - 1]) == Some(a.lastActivity)
                             && TimeField(log[|log| - 1].leaseExpiresAt) == Some(a.leaseExpiresAt))
  {
    var init, last := log[..|log| - 1], log[|log| - 1];
    if !last.kind.Armed? {
      ReplayedLease(init);
    }
  }

  function EarlierOf(a: int, b: int): int {
    if a <= b then a else b
  }

  /**
   In every armed state the lease ends one window after the last recorded activity or at the hard
   deadline, whichever is earlier; after the arming instant and never past the deadline.
   */
  lemma LeaseLaw(config: Config, actions: seq<Action>)
    ensures var sys := FromFresh(config, actions);
      sys.Up? && !sys.core.mem.safeMode && sys.core.mem.armed.Some? ==>
        && Replay(sys.core.store.log).Some? && Replay(sys.core.store.log).value.Some?
        && var armed, last := sys.core.mem.armed.value, Replay(sys.core.store.log).value.value.lastActivity;
        && armed.leaseExpiresAt == EarlierOf(last + LEASE_WINDOW, armed.deadline)
        && armed.armedAt <= last <= sys.core.mem.lastClock
        && last < armed.leaseExpiresAt <= armed.deadline
  {
    hide StoreInv, Agrees, Replay;
    RunsKeepInvariant(config, actions);
    var sys := FromFresh(config, actions);
    if sys.Up? && !sys.core.mem.safeMode && sys.core.mem.armed.Some? {
      LeaseOfCore(config.codec, sys.core);
    }
  }

  lemma LeaseOfCore(codec: Codec, core: Core)
    requires CoreInv(codec, core) && !core.mem.safeMode && core.mem.armed.Some?
    ensures Replay(core.store.log).Some? && Replay(core.store.log).value.Some?
    ensures var armed, last := core.mem.armed.value, Replay(core.store.log).value.value.lastActivity;
      && armed.leaseExpiresAt == EarlierOf(last + LEASE_WINDOW, armed.deadline)
      && armed.armedAt <= last <= core.mem.lastClock
      && last < armed.leaseExpiresAt <= armed.deadline
  {
    hide Replay;
    RecordsValid(core.store.log);
    ReplayedLease(core.store.log);
  }

  lemma RecordsValid(log: seq<AuthorityRecord>)
    requires Consecutive(log, 0, 0)
    ensures forall i :: 0 <= i < |log| ==> SchemaValid(log[i])
  {
    hide SchemaValid;
    forall i | 0 <= i < |log|
      ensures SchemaValid(log[i])
    {
      assert InOrder(log[i], 0 + i, EpochBefore(log, i, 0));
    }
  }

  /** Record `j` renews the lease of the record before it: in time, and by a strictly later expiry. */
  ghost predicate RenewsPrevious(log: seq<AuthorityRecord>, j: nat)
    requires 0 < j < |log|
  {
    var before, renewed := log[j - 1], log[j];
    && ActivityOf(before).Some? && TimeField(before.leaseExpiresAt).Some?
    && TimeField(renewed.renewedAt).Some? && TimeField(renewed.leaseExpiresAt).Some?
    && ActivityOf(before).value <= TimeField(renewed.renewedAt).value
    && TimeField(renewed.renewedAt).value < TimeField(before.leaseExpiresAt).value
    && TimeField(before.leaseExpiresAt).value < TimeField(renewed.leaseExpiresAt).value
  }

  lemma RenewalsExtend(config: Config, actions: seq<Action>)
    ensures var log := StoreOf(FromFresh(config, actions)).log;
      forall j :: 0 < j < |log| && log[j].kind.LeaseRenewed? ==> RenewsPrevious(log, j)
  {
    RunsKeepInvariant(config, actions);
    StoreOfInv(config.codec, FromFresh(config, actions));
    var log := StoreOf(FromFresh(config, actions)).log;
    forall j | 0 < j < |log| && log[j].kind.LeaseRenewed?
      ensures RenewsPrevious(log, j)
    {
      RenewalExtends(config.codec, StoreOf(FromFresh(config, actions)), j);
    }
  }

  lemma RenewalExtends(codec: Codec, store: Store, j: nat)
    requires StoreInv(codec, store)
    requires 0 < j < |store.log| && store.log[j].kind.LeaseRenewed?
    ensures RenewsPrevious(store.log, j)
  {
    hide SchemaValid, Consecutive, Replay;
    var log := store.log;
    RecordsValid(log);
    ReplayPrefixAccepted(log, j);
    ReplayPrefixAccepted(log, j + 1);
    ReplaySnoc(log[..j], log[j]);
    assert log[..j] + [log[j]] == log[..j + 1];
    ReplayedLease(log[..j]);
  }

  // ----- Fencing -----

  /** A fence reports completion exactly when its effects are those of a complete fence. */
  lemma FenceCompletes(f: FenceScript)
    ensures RunFence(f).complete <==> CompleteFence(RunFence(f).effects)
  {
    var effects := RunFence(f).effects;
    if |effects| == 4 {
      assert effects[3] == if f.aliveAfterTerm then Signalled(Kill) else CountedJobs(f.jobs.value);
      assert effects[2] == ObservedAlive(false, f.aliveAfterTerm);
    } else if |effects| == 7 {
      assert effects[6] == CountedJobs(f.jobs.value);
    }
  }

  predicate IsDecision(e: Effect) {
    e.Appended? && IsBegin(e.record.kind)
  }

  /**
   In any step of any run, a decision record is written only by a delivered request in an armed
   state; before lease expiry nothing precedes it in that call, and at or after expiry exactly
   one complete fence does.
   */
  lemma FenceBeforeDecision(config: Config, sys: System, a: Action, k: nat)
    requires SystemUsable(sys)
    requires k < |Step(config, sys, a).effects| && IsDecision(Step(config, sys, a).effects[k])
    ensures a.Deliver? && sys.Up? && sys.core.mem.armed.Some?
    ensures k == |Step(config, sys, a).effects| - 1
    ensures var before := Step(config, sys, a).effects[..k];
      if a.env.now >= sys.core.mem.armed.value.leaseExpiresAt then CompleteFence(before) else before == []
  {
    hide HandleArm, HandleLeaseRenewal, HandleDecision;
    var req := a.envelope.request;
    match req {
      case Arm(_, _, _, _, _, secs, nanos, _, _) =>
        if RequestDeadline(secs, nanos).Ok? {
          ArmWritesNoDecision(config.codec, config.hostId, sys.core, req, RequestDeadline(secs, nanos).value, a.env);
        }
      case ReportHealth(_, _, _, _) =>
      case RequestLeaseRenewal(_, _, tx, epoch, lease, tag, _) =>
        RenewalWritesNoDecision(config.codec, sys.core, tx, epoch, lease, tag, a.env);
      case Heartbeat(_, _, tx, epoch, lease, tag, _) =>
        RenewalWritesNoDecision(config.codec, sys.core, tx, epoch, lease, tag, a.env);
      case RequestDecision(id, _, tx, epoch) => DecisionFenced(config.codec, sys.core, id, tx, epoch, a.env, k);
    }
  }

  lemma ArmWritesNoDecision(codec: Codec, host: string, core: Core, req: LocalRequest, deadline: Time, env: Env)
    requires core.store.torn.None? && req.Arm?
    ensures forall e :: e in HandleArm(codec, host, core, req, deadline, env).effects ==> !IsDecision(e)
  {
    hide ManifestValid, FrameWritten;
  }

  lemma RenewalWritesNoDecision(codec: Codec, core: Core, txId: string, epoch: U64, leaseId: string, tag: WorkerGroupTag, env: Env)
    requires core.store.torn.None?
    ensures forall e :: e in HandleLeaseRenewal(codec, core, txId, epoch, leaseId, tag, env).effects ==> !IsDecision(e)
  {
    hide FrameWritten;
  }

  lemma DecisionFenced(codec: Codec, core: Core, requestId: string, txId: string, epoch: U64, env: Env, k: nat)
    requires core.store.torn.None?
    requires var o := HandleDecision(codec, core, requestId, txId, epoch, env);
             k < |o.effects| && IsDecision(o.effects[k])
    ensures core.mem.armed.Some?
    ensures var o := HandleDecision(codec, core, requestId, txId, epoch, env);
      && k == |o.effects| - 1
      && if env.now >= core.mem.armed.value.leaseExpiresAt then CompleteFence(o.effects[..k]) else o.effects[..k] == []
  {
    hide FrameWritten, LogAccepted, RunFence, CompleteFence;
    FenceCompletes(env.fence);
    FenceWritesNothing(env.fence);
  }

  lemma FenceWritesNothing(f: FenceScript)
    ensures forall e :: e in RunFence(f).effects ==> !e.Appended?
  {
  }

  predicate InProcess(a: Action) {
    a.Connect? || a.Deliver?
  }

  /** After safe mode is latched, nothing in that process changes log, epoch, armed state or binding. */
  lemma {:induction false} SafeModeFreezes(config: Config, sys: System, actions: seq<Action>)
    requires SystemUsable(sys) && sys.Up? && sys.core.mem.safeMode
    requires forall i :: 0 <= i < |actions| ==> InProcess(actions[i])
    ensures var after := Run(config, sys, actions);
      && after.Up? && after.core.mem == sys.core.mem
      && after.core.store == sys.core.store.(marker := after.core.store.marker)
  {
    if actions != [] {
      SafeModeFreezes(config, sys, actions[..|actions| - 1]);
    }
  }

  // ----- Sessions -----

  predicate AcceptedBy(sys: System, id: nat, a: Action) {
    a.Deliver? && a.id == id && sys.Up? && id in sys.sessions && DecodeRequest(sys.sessions[id], a.envelope).None?
  }

  /** The counters of the requests that session `id` accepted during a run, in order. */
  function AcceptedCounters(config: Config, sys: System, id: nat, actions: seq<Action>): seq<U64>
    requires SystemUsable(sys)
  {
    if actions == [] then []
    else
      var init, last := actions[..|actions| - 1], actions[|actions| - 1];
      var earlier := AcceptedCounters(config, sys, id, init);
      if AcceptedBy(Run(config, sys, init), id, last) then earlier + [last.envelope.counter] else earlier
  }

  /** A session accepts consecutive counters: no repeat and no gap. */
  lemma {:induction false} CountersConsecutive(config: Config, sys: System, id: nat, actions: seq<Action>)
    requires SystemUsable(sys) && sys.Up? && id in sys.sessions
    requires forall i :: 0 <= i < |actions| ==> InProcess(actions[i]) && !(actions[i].Connect? && actions[i].id == id)
    ensures var accepted, start := AcceptedCounters(config, sys, id, actions), sys.sessions[id].lastCounter;
      && (forall k :: 0 <= k < |accepted| ==> accepted[k] == start + 1 + k)
      && var after := Run(config, sys, actions);
      && after.Up? && id in after.sessions && after.sessions[id].lastCounter == start + |accepted|
  {
    if actions != [] {
      CountersConsecutive(config, sys, id, actions[..|actions| - 1]);
    }
  }

  /** A request refused at decode changes nothing at all, the counter included. */
  lemma RefusedAtDecodeChangesNothing(config: Config, sys: System, a: Action)
    requires SystemUsable(sys) && a.Deliver?
    requires !AcceptedBy(sys, a.id, a)
    ensures Step(config, sys, a) == Moved(sys, [])
  {
  }

  /** In every run, a request that reaches dispatch names exactly the bound host, transaction and epoch. */
  lemma DispatchedRequestIsBound(config: Config, actions: seq<Action>, a: Action)
    requires a.Deliver? && AcceptedBy(FromFresh(config, actions), a.id, a)
    ensures var binding, req := FromFresh(config, actions).core.mem.binding, a.envelope.request;
      && binding.Some?
      && req.hostId == binding.value.hostId && req.txId == binding.value.txId && req.epoch == binding.value.epoch
  {
    hide CoreInv;
    RunsKeepInvariant(config, actions);
  }

  // ----- What a caller is told -----

  /**
   A decision that is announced was open, in time and for the armed base; it is a commit exactly
   when the mandatory invariants passed; and it is the one record added to the log.
   */
  lemma AnnouncedDecision(codec: Codec, core: Core, requestId: string, txId: string, epoch: U64, env: Env)
    requires core.store.torn.None?
    requires HandleDecision(codec, core, requestId, txId, epoch, env).reply.Ok?
    ensures core.mem.armed.Some?
    ensures var o, armed := HandleDecision(codec, core, requestId, txId, epoch, env), core.mem.armed.value;
      && armed.txId == txId && armed.epoch == epoch && armed.chosen.None?
      && core.mem.lastClock <= env.now <= armed.deadline
      && (env.observedBase == "" || env.observedBase == armed.base)
      && env.invariants.Some?
      && var kind := if env.invariants.value.Pass? then BeginCommit else BeginRevert;
      && o.reply.value == AuthorityChosen(requestId, kind)
      && core.mem.logSeq < U64_MAX
      && o.core.store.log == core.store.log + [DecisionRecord(core.mem.logSeq + 1, kind, BindingOfArmed(armed))]
      && o.core.mem == core.mem.(logSeq := core.mem.logSeq + 1, armed := Some(armed.(chosen := Some(kind))))
  {
    hide RunFence, LogAccepted;
  }

  /**
   An arm request that is confirmed found no armed transaction, the base unmoved, the base invariant
   and every additive check listed, a deadline ahead and its epoch one above the durable one; it
   advanced that epoch, added one record and armed exactly what was asked for under the session's lease.
   */
  lemma ConfirmedArm(codec: Codec, host: string, core: Core, req: LocalRequest, deadline: Time, env: Env)
    requires req.Arm? && core.store.torn.None?
    requires HandleArm(codec, host, core, req, deadline, env).reply.Ok?
    ensures core.mem.armed.None? && core.mem.binding.Some? && req.hostId == host && env.now < deadline
    ensures env.observedBase == "" || env.observedBase == req.base
    ensures ROUTE_PRESENT in req.mandatoryInvariants
    ensures forall check :: check in req.additiveManifestChecks ==> check in req.mandatoryInvariants
    ensures core.store.epochFile.HighWater? && req.epoch == core.store.epochFile.epoch + 1 == core.mem.binding.value.epoch
    ensures var o, bound := HandleArm(codec, host, core, req, deadline, env), core.mem.binding.value;
      && o.core.store.epochFile == HighWater(req.epoch)
      && |o.core.store.log| == |core.store.log| + 1 && core.store.log <= o.core.store.log
      && o.core.store.log[|core.store.log|].kind.Armed?
      && o.core.mem.armed.Some?
      && var armed := o.core.mem.armed.value;
      && armed == ArmedState(host, req.txId, req.epoch, req.base, bound.leaseId, bound.workerGroupTag,
                             env.now, deadline, armed.leaseExpiresAt, None)
      && LeaseExpiryAt(env.now, deadline) == Some(armed.leaseExpiresAt)
      && o.core.mem.safeMode == core.mem.safeMode
  {
  }
}
