/**
 What the watchdog answers and does, handler by handler, decided by core, request and environment
 alone: when each request is granted, and otherwise by which test it is refused.
 */
module WatchdogLaws {
  import opened Bytes
  import opened Wrappers
  import opened AuthorityLog
  import opened DecisionLog
  import opened WatchdogModel
  import opened WatchdogRuns
  import opened WatchdogTheorems

  // ----- Fencing -----

  /** The group is confirmed gone, after Term or after Kill, and no candidate job is left. */
  predicate GroupGone(f: FenceScript) {
    && f.termDelivered && f.termWaited
    && (f.aliveAfterTerm ==> f.killDelivered && f.killWaited && !f.aliveAfterKill)
    && f.jobs == Some(0)
  }

  /** Kill is sent only to a group that outlived Term. */
  lemma FenceEndsExactly(f: FenceScript)
    ensures RunFence(f).complete <==> GroupGone(f)
    ensures Signalled(Kill) in RunFence(f).effects <==> f.termDelivered && f.termWaited && f.aliveAfterTerm && f.killDelivered
    ensures Signalled(Term) in RunFence(f).effects <==> f.termDelivered
    ensures f.termDelivered ==> RunFence(f).effects[0] == Signalled(Term)
  {
    if f.termDelivered && f.termWaited && f.aliveAfterTerm && f.killDelivered {
      assert RunFence(f).effects[3] == Signalled(Kill);
    }
    if f.termDelivered {
      assert RunFence(f).effects[0] == Signalled(Term);
    }
  }

  /** The whole protocol of a fence, and how far a script lets it go. */
  function FenceProtocol(f: FenceScript): seq<Effect> {
    [Signalled(Term), Waited, ObservedAlive(false, f.aliveAfterTerm)]
    + (if f.aliveAfterTerm then [Signalled(Kill), Waited, ObservedAlive(true, f.aliveAfterKill)] else [])
    + (if f.jobs.Some? then [CountedJobs(f.jobs.value)] else [])
  }

  lemma FenceInOrder(f: FenceScript)
    ensures RunFence(f).effects <= FenceProtocol(f)
    ensures |RunFence(f).effects| ==
            if !f.termDelivered then 0
            else if !f.termWaited then 1
            else if f.aliveAfterTerm && !f.killDelivered then 3
            else if f.aliveAfterTerm && !f.killWaited then 4
            else if f.aliveAfterTerm && f.aliveAfterKill then 6
            else |FenceProtocol(f)|
  {
    assert |RunFence(f).effects| <= |FenceProtocol(f)|;
    assert forall i :: 0 <= i < |RunFence(f).effects| ==> RunFence(f).effects[i] == FenceProtocol(f)[i];
  }

  // ----- Decisions -----

  /** The request names the armed transaction, still undecided. */
  predicate Undecided(core: Core, txId: string, epoch: U64) {
    && core.mem.armed.Some? && core.mem.armed.value.txId == txId && core.mem.armed.value.epoch == epoch
    && core.mem.armed.value.chosen.None?
  }

  /** And the log reads back, the clock has not gone back, and the base is still the armed one. */
  predicate Decidable(codec: Codec, core: Core, txId: string, epoch: U64, env: Env) {
    && Undecided(core, txId, epoch)
    && env.logReadable && LogAccepted(codec, core.store)
    && core.mem.lastClock <= env.now
    && (env.observedBase == "" || env.observedBase == core.mem.armed.value.base)
  }

  /**
   FenceIncomplete is answered exactly when the request reaches the fence and the group is not
   confirmed gone: then safe mode is latched, and log, epoch and armed state are as they were.
   */
  lemma StoppedFenceLatches(codec: Codec, core: Core, requestId: string, txId: string, epoch: U64, env: Env)
    requires core.store.torn.None?
    ensures var o := HandleDecision(codec, core, requestId, txId, epoch, env);
      && var stopped := && Decidable(codec, core, txId, epoch, env) && env.now >= core.mem.armed.value.leaseExpiresAt
                        && !GroupGone(env.fence);
      && (o.reply == Err(FenceIncomplete) <==> stopped)
      && (stopped ==>
            && o.core.mem == core.mem.(safeMode := true)
            && o.core.store == core.store.(marker := core.store.marker || env.marker.stored)
            && o.effects == RunFence(env.fence).effects && !CompleteFence(o.effects))
  {
    hide LogAccepted, RunFence, GroupGone, CompleteFence, FrameWritten;
    FenceEndsExactly(env.fence);
    FenceCompletes(env.fence);
  }

  /** The record the decision writes. */
  function DecisionText(core: Core, kind: Kind): AuthorityRecord
    requires core.mem.armed.Some? && core.mem.logSeq < U64_MAX
  {
    var a := core.mem.armed.value;
    AuthorityRecord(core.mem.logSeq + 1, a.epoch, kind, Some(a.hostId), Some(a.txId), None, Some(a.leaseId), Some(a.workerGroupTag),
                    Stamp(None, None), Stamp(None, None), Stamp(None, None), Stamp(None, None))
  }

  predicate Appendable(codec: Codec, r: AuthorityRecord, env: Env) {
    SchemaValid(r) && |codec.encode(r)| < U32_LIMIT && env.appendFault.NoAppendFault?
  }

  /**
   A decision is announced exactly when it is open, not past the deadline, fenced if the lease has
   expired, evaluated, and appended. It is BeginCommit exactly when the invariants passed.
   */
  lemma DecidesExactly(codec: Codec, core: Core, requestId: string, txId: string, epoch: U64, env: Env)
    requires core.store.torn.None?
    ensures var o := HandleDecision(codec, core, requestId, txId, epoch, env);
      o.reply.Ok? <==>
        && Decidable(codec, core, txId, epoch, env)
        && (env.now >= core.mem.armed.value.leaseExpiresAt ==> GroupGone(env.fence))
        && env.now <= core.mem.armed.value.deadline
        && env.invariants.Some? && core.mem.logSeq < U64_MAX
        && Appendable(codec, DecisionText(core, if env.invariants == Some(Pass) then BeginCommit else BeginRevert), env)
    ensures var o := HandleDecision(codec, core, requestId, txId, epoch, env);
      o.reply.Ok? ==>
        && var kind := if env.invariants == Some(Pass) then BeginCommit else BeginRevert;
        && o.reply.value == AuthorityChosen(requestId, kind)
        && o.core.store == core.store.(log := core.store.log + [DecisionText(core, kind)])
        && o.core.mem == core.mem.(logSeq := core.mem.logSeq + 1, armed := Some(core.mem.armed.value.(chosen := Some(kind))))
  {
    hide LogAccepted, RunFence, GroupGone;
    FenceEndsExactly(env.fence);
  }

  /** Each refusal of a decision is that of the first test that fails, and leaves the log as it is. */
  lemma DecisionRefusals(codec: Codec, core: Core, requestId: string, txId: string, epoch: U64, env: Env)
    requires core.store.torn.None?
    ensures var o, armed := HandleDecision(codec, core, requestId, txId, epoch, env), core.mem.armed;
      && (armed.None? || armed.value.txId != txId ==> o == Outcome(core, [], Err(UnknownTransaction)))
      && (armed.Some? && armed.value.txId == txId && armed.value.epoch != epoch ==> o == Outcome(core, [], Err(StaleEpoch)))
      && (armed.Some? && armed.value.txId == txId && armed.value.epoch == epoch && armed.value.chosen.Some? ==>
            o == Outcome(core, [], Err(ConflictingRequest)))
      && (Undecided(core, txId, epoch) && !(env.logReadable && LogAccepted(codec, core.store)) ==>
            o == Outcome(Latched(core, env.marker), [], Err(LatchError(env.marker))))
      && (Undecided(core, txId, epoch) && env.logReadable && LogAccepted(codec, core.store) ==>
            && (env.now < core.mem.lastClock ==> o == Outcome(core, [], Err(ClockRegression)))
            && (core.mem.lastClock <= env.now && env.observedBase != "" && env.observedBase != armed.value.base ==>
                  o == Outcome(core, [], Err(MovedBase))))
  {
    hide LogAccepted, RunFence, AppendRecord;
  }

  /** Past the deadline, without an evaluation or without a number, a fence may have run but nothing else changes. */
  lemma LateDecisionRefusals(codec: Codec, core: Core, requestId: string, txId: string, epoch: U64, env: Env)
    requires core.store.torn.None? && Decidable(codec, core, txId, epoch, env)
    requires env.now >= core.mem.armed.value.leaseExpiresAt ==> GroupGone(env.fence)
    ensures var o := HandleDecision(codec, core, requestId, txId, epoch, env);
      && (env.now > core.mem.armed.value.deadline ==> o.core == core && o.reply == Err(ExpiredDeadline))
      && (env.now <= core.mem.armed.value.deadline && (env.invariants.None? || core.mem.logSeq == U64_MAX) ==>
            o.core == core && o.reply == Err(SafeModeActive))
  {
    hide LogAccepted, RunFence, GroupGone, AppendRecord;
    FenceEndsExactly(env.fence);
  }

  /** A decision that gets as far as its record answers as the append does; if that fails, nothing is chosen. */
  lemma DecisionWrites(codec: Codec, core: Core, requestId: string, txId: string, epoch: U64, env: Env)
    requires core.store.torn.None? && Decidable(codec, core, txId, epoch, env)
    requires env.now >= core.mem.armed.value.leaseExpiresAt ==> GroupGone(env.fence)
    requires env.now <= core.mem.armed.value.deadline && env.invariants.Some? && core.mem.logSeq < U64_MAX
    ensures var o := HandleDecision(codec, core, requestId, txId, epoch, env);
      && var fence := if env.now >= core.mem.armed.value.leaseExpiresAt then RunFence(env.fence).effects else [];
      && var kind := if env.invariants == Some(Pass) then BeginCommit else BeginRevert;
      && var written := AppendRecord(codec, core, DecisionText(core, kind), env);
      && o.effects == fence + written.effects && o.core.store == written.core.store
      && (written.reply.Err? ==> o.core == written.core && o.reply == Err(Durability))
  {
    hide LogAccepted, RunFence, GroupGone;
    FenceEndsExactly(env.fence);
  }

  /** What a caller is told when safe mode is entered: that, unless the marker could not be made durable. */
  function LatchError(fate: MarkerFate): RpcError {
    if fate.failure == Some(MarkerNotDurable) then Durability else SafeModeActive
  }

  /** Latching sets the flag for good and stores the marker if the disk lets it; it touches nothing else. */
  lemma LatchingOnlyLatches(core: Core, fate: MarkerFate)
    ensures var after := Latched(core, fate);
      && after.mem == core.mem.(safeMode := true)
      && after.store == core.store.(marker := core.store.marker || fate.stored)
  {
  }

  // ----- Durable writes -----

  /** A record is acknowledged exactly when it was fit to write and every step succeeded; any failure latches. */
  lemma AppendsExactly(codec: Codec, core: Core, r: AuthorityRecord, env: Env)
    requires core.store.torn.None?
    ensures var o, fit := AppendRecord(codec, core, r, env), SchemaValid(r) && |codec.encode(r)| < U32_LIMIT;
      && (o.reply.Ok? <==> fit && env.appendFault.NoAppendFault?)
      && (o.reply.Ok? ==> o.core == Core(core.store.(log := core.store.log + [r]), core.mem.(logSeq := r.sequence)))
      && (o.reply.Err? ==> o.reply.error == Durability && o.core.mem == core.mem.(safeMode := true))
      && o.core.store.log == (if fit && (env.appendFault.NoAppendFault? || env.appendFault.LogSyncFails? || env.appendFault.LogDirSyncFails?)
                              then core.store.log + [r] else core.store.log)
      && o.core.store.torn == (if fit && env.appendFault.LogWriteFails? && env.appendFault.written > 0
                               then Some(TornFrame(r, env.appendFault.written)) else None)
      && o.core.store.epochFile == core.store.epochFile && o.core.store.epochResidue == core.store.epochResidue
      && o.effects == (if o.core.store.log == core.store.log then [] else [Appended(r)])
  {
    hide SchemaValid;
  }

  /** The epoch file moves up by one, or stays; it has moved in every case in which the new file took its place. */
  lemma AdvancesExactly(core: Core, env: Env)
    ensures var o, before, fault := AdvanceEpoch(core, env), core.store.epochFile, env.epochFault;
      && var ready := !core.store.epochResidue && before.HighWater? && before.epoch < U64_MAX
                      && !fault.EpochDirUnlistable? && !fault.EpochDirUncreatable? && !fault.EpochUnreadable?;
      && (o.reply.Ok? <==> ready && fault.NoEpochFault?)
      && (o.reply.Ok? ==> o.core == core.(store := core.store.(epochFile := HighWater(before.epoch + 1))))
      && (o.reply.Err? ==> o.core.mem == core.mem.(safeMode := true))
      && (o.core.store.epochFile != before <==>
            ready && (fault.NoEpochFault? || fault.EpochDirSyncFails? || fault.EpochReadbackFails? || fault == EpochRenameFails(true)))
      && (o.core.store.epochFile != before ==> o.core.store.epochFile == HighWater(before.epoch + 1))
      && (o.core.store.epochResidue <==>
            core.store.epochResidue
            || (ready && (fault == EpochTempWriteFails(true) || fault.EpochTempSyncFails? || fault == EpochRenameFails(false))))
      && o.core.store.log == core.store.log
      && o.effects == (if o.core.store.epochFile == before then [] else [AdvancedEpoch(before.epoch + 1)])
      && (o.reply.Err? ==> o.reply.error == if ready && (fault.EpochTempSyncFails? || fault.EpochDirSyncFails?) then Durability
                                            else LatchError(env.marker))
  {
  }

  // ----- Arming -----

  predicate NamesRoute(req: LocalRequest)
    requires req.Arm?
  {
    "route_present" in req.mandatoryInvariants && forall c :: c in req.additiveManifestChecks ==> c in req.mandatoryInvariants
  }

  /** The request is for this host, nothing is armed, the base is the observed one, and the checks may not be weakened. */
  predicate ArmAsked(host: string, core: Core, req: LocalRequest, env: Env)
    requires req.Arm?
  {
    && req.hostId == host && core.mem.armed.None?
    && (env.observedBase == "" || env.observedBase == req.base)
    && NamesRoute(req)
  }

  predicate EpochAhead(core: Core, env: Env) {
    env.epochReadable && core.store.epochFile.HighWater? && core.store.epochFile.epoch < U64_MAX
  }

  predicate ArmBound(core: Core, req: LocalRequest, env: Env)
    requires req.Arm?
  {
    && EpochAhead(core, env) && core.mem.binding.Some?
    && req.epoch == core.mem.binding.value.epoch == core.store.epochFile.epoch + 1
  }

  /** The armed record: the request under the session's lease, with the lease of one window or up to the deadline. */
  function ArmText(core: Core, req: LocalRequest, now: Time, deadline: Time): AuthorityRecord
    requires req.Arm? && core.mem.binding.Some? && core.mem.logSeq < U64_MAX && 0 <= now < deadline
  {
    var b := core.mem.binding.value;
    AuthorityRecord(core.mem.logSeq + 1, req.epoch, Armed, Some(req.hostId), Some(req.txId), Some(req.base), Some(b.leaseId),
                    Some(b.workerGroupTag), StampOf(now), StampOf(deadline), StampOf(EarlierOf(now + 3600 * NANOS_PER_SEC, deadline)),
                    Stamp(None, None))
  }

  function StampOf(t: int): Stamp
    requires 0 <= t <= MAX_TIME
  {
    Stamp(Some(t / NANOS_PER_SEC), Some(t % NANOS_PER_SEC))
  }

  /** The instant is one the record can hold, and one window after it is still an instant. */
  predicate Storable(now: Time) {
    0 <= now && now + 3600 * NANOS_PER_SEC <= MAX_TIME
  }

  predicate BeyondWindow(now: Time) {
    now + 3600 * NANOS_PER_SEC > MAX_TIME
  }

  lemma ArmsExactly(codec: Codec, host: string, core: Core, req: LocalRequest, deadline: Time, env: Env)
    requires req.Arm? && core.store.torn.None?
    ensures var o := HandleArm(codec, host, core, req, deadline, env);
      o.reply.Ok? <==>
        && ArmAsked(host, core, req, env) && ArmBound(core, req, env) && env.now < deadline && Storable(env.now)
        && !core.store.epochResidue && env.epochFault.NoEpochFault? && core.mem.logSeq < U64_MAX
        && Appendable(codec, ArmText(core, req, env.now, deadline), env)
    ensures var o := HandleArm(codec, host, core, req, deadline, env);
      o.reply.Ok? ==>
        && var r, b := ArmText(core, req, env.now, deadline), core.mem.binding.value;
        && o.reply.value == ArmedResponse(req.requestId)
        && o.effects == [AdvancedEpoch(req.epoch), Appended(r)]
        && o.core.store == core.store.(epochFile := HighWater(req.epoch), log := core.store.log + [r])
        && var expires := EarlierOf(env.now + 3600 * NANOS_PER_SEC, deadline);
        && o.core.mem == core.mem.(logSeq := core.mem.logSeq + 1, lastClock := env.now, armed := Some(
             ArmedState(host, req.txId, req.epoch, req.base, b.leaseId, b.workerGroupTag, env.now, deadline, expires, None)))
  {
    hide SchemaValid;
  }

  /** Each refusal of an arm request is that of the first test that fails; before the epoch is advanced nothing is written. */
  lemma ArmRefusals(codec: Codec, host: string, core: Core, req: LocalRequest, deadline: Time, env: Env)
    requires req.Arm? && core.store.torn.None?
    ensures var o := HandleArm(codec, host, core, req, deadline, env);
      && (req.hostId != host ==> o == Outcome(core, [], Err(WrongBinding)))
      && (req.hostId == host && core.mem.armed.Some? ==> o == Outcome(core, [], Err(ConflictingRequest)))
      && (req.hostId == host && core.mem.armed.None? && env.observedBase != "" && env.observedBase != req.base ==>
            o == Outcome(core, [], Err(MovedBase)))
      && (req.hostId == host && core.mem.armed.None? && (env.observedBase == "" || env.observedBase == req.base) && !NamesRoute(req) ==>
            o == Outcome(core, [], Err(WeakenedMandatoryInvariant)))
      && (ArmAsked(host, core, req, env) && !EpochAhead(core, env) ==>
            o == Outcome(Latched(core, env.marker), [], Err(LatchError(env.marker))))
      && (ArmAsked(host, core, req, env) && EpochAhead(core, env) ==>
            && (core.mem.binding.None? ==> o == Outcome(core, [], Err(WrongBinding)))
            && (core.mem.binding.Some? && !ArmBound(core, req, env) ==> o == Outcome(core, [], Err(WrongEpoch)))
            && (ArmBound(core, req, env) && deadline <= env.now ==> o == Outcome(core, [], Err(ExpiredDeadline))))
  {
    hide SchemaValid, AdvanceEpoch, AppendRecord;
  }

  /**
   A request in time advances the epoch first. If that fails, so does the request; if the record then
   cannot be numbered, stored or written, the epoch stays advanced and nothing is armed.
   */
  lemma ArmWrites(codec: Codec, host: string, core: Core, req: LocalRequest, deadline: Time, env: Env)
    requires req.Arm? && core.store.torn.None?
    requires ArmAsked(host, core, req, env) && ArmBound(core, req, env) && env.now < deadline
    ensures var o, advanced := HandleArm(codec, host, core, req, deadline, env), AdvanceEpoch(core, env);
      && (advanced.reply.Err? ==> o == Outcome(advanced.core, advanced.effects, Err(advanced.reply.error)))
      && (advanced.reply.Ok? ==>
            && (BeyondWindow(env.now) ==>
                  o == Outcome(Latched(advanced.core, env.marker), advanced.effects, Err(LatchError(env.marker))))
            && (!BeyondWindow(env.now) && core.mem.logSeq == U64_MAX ==>
                  o == Outcome(advanced.core, advanced.effects, Err(SafeModeActive)))
            && (!BeyondWindow(env.now) && core.mem.logSeq < U64_MAX && env.now < 0 ==>
                  o == Outcome(Latched(advanced.core, env.marker), advanced.effects, Err(LatchError(env.marker))))
            && (Storable(env.now) && core.mem.logSeq < U64_MAX ==>
                  && var written := AppendRecord(codec, advanced.core, ArmText(core, req, env.now, deadline), env);
                  && o.effects == advanced.effects + written.effects && o.core.store == written.core.store
                  && (written.reply.Err? ==> o.core == written.core && o.reply == Err(Durability))))
  {
    hide SchemaValid, AdvanceEpoch;
    AdvanceLeavesMemory(core, env);
  }

  lemma AdvanceLeavesMemory(core: Core, env: Env)
    ensures var o := AdvanceEpoch(core, env);
      && o.core.store.torn == core.store.torn
      && (o.reply.Ok? ==> o.core.mem == core.mem)
  {
  }

  // ----- Renewals -----

  /** The request names the armed transaction, epoch, lease and worker group, still undecided. */
  predicate LeaseHeld(core: Core, txId: string, epoch: U64, leaseId: string, tag: WorkerGroupTag) {
    && Undecided(core, txId, epoch)
    && core.mem.armed.value.leaseId == leaseId && core.mem.armed.value.workerGroupTag == tag
  }

  /** It comes with a clock that has not gone back, before the lease ends, and before or at the deadline. */
  predicate InTime(core: Core, now: Time)
    requires core.mem.armed.Some?
  {
    core.mem.lastClock <= now < core.mem.armed.value.leaseExpiresAt && now <= core.mem.armed.value.deadline
  }

  /** Where the lease would then end. */
  function NextExpiry(core: Core, now: Time): int
    requires core.mem.armed.Some?
  {
    EarlierOf(now + 3600 * NANOS_PER_SEC, core.mem.armed.value.deadline)
  }

  function RenewalText(core: Core, now: Time): AuthorityRecord
    requires core.mem.armed.Some? && core.mem.logSeq < U64_MAX && 0 <= now < core.mem.armed.value.deadline
  {
    var a := core.mem.armed.value;
    AuthorityRecord(core.mem.logSeq + 1, a.epoch, LeaseRenewed, Some(a.hostId), Some(a.txId), None, Some(a.leaseId),
                    Some(a.workerGroupTag), Stamp(None, None), Stamp(None, None), StampOf(NextExpiry(core, now)), StampOf(now))
  }

  /**
   A renewal is granted exactly when the lease is held and the request in time, and either it would
   not extend the lease, or the extension is written. Without extension only the clock moves.
   */
  lemma RenewsExactly(codec: Codec, core: Core, txId: string, epoch: U64, leaseId: string, tag: WorkerGroupTag, env: Env)
    requires core.store.torn.None?
    ensures var o := HandleLeaseRenewal(codec, core, txId, epoch, leaseId, tag, env);
      o.reply.Ok? <==>
        && LeaseHeld(core, txId, epoch, leaseId, tag) && InTime(core, env.now)
        && env.now < core.mem.armed.value.deadline && !BeyondWindow(env.now)
        && (NextExpiry(core, env.now) > core.mem.armed.value.leaseExpiresAt ==>
              0 <= env.now && core.mem.logSeq < U64_MAX && Appendable(codec, RenewalText(core, env.now), env))
    ensures var o := HandleLeaseRenewal(codec, core, txId, epoch, leaseId, tag, env);
      o.reply.Ok? ==>
        if NextExpiry(core, env.now) > core.mem.armed.value.leaseExpiresAt then
          && var expires := NextExpiry(core, env.now);
          && o.core.store == core.store.(log := core.store.log + [RenewalText(core, env.now)])
          && o.core.mem == core.mem.(logSeq := core.mem.logSeq + 1, lastClock := env.now,
                                     armed := Some(core.mem.armed.value.(leaseExpiresAt := expires)))
        else o.core == core.(mem := core.mem.(lastClock := env.now)) && o.effects == []
  {
    hide SchemaValid;
  }

  /** Each refusal of a renewal is that of the first test that fails, and changes nothing. */
  lemma RenewalRefusals(codec: Codec, core: Core, txId: string, epoch: U64, leaseId: string, tag: WorkerGroupTag, env: Env)
    requires core.store.torn.None?
    ensures var o, armed := HandleLeaseRenewal(codec, core, txId, epoch, leaseId, tag, env), core.mem.armed;
      && (armed.None? || armed.value.txId != txId ==> o == Outcome(core, [], Err(UnknownTransaction)))
      && (armed.Some? && armed.value.txId == txId && armed.value.epoch != epoch ==> o == Outcome(core, [], Err(StaleEpoch)))
      && (armed.Some? && armed.value.txId == txId && armed.value.epoch == epoch ==>
            && (armed.value.leaseId != leaseId || armed.value.workerGroupTag != tag ==> o == Outcome(core, [], Err(WrongBinding)))
            && (armed.value.leaseId == leaseId && armed.value.workerGroupTag == tag && armed.value.chosen.Some? ==>
                  o == Outcome(core, [], Err(ConflictingRequest))))
      && (LeaseHeld(core, txId, epoch, leaseId, tag) ==>
            && (env.now < core.mem.lastClock ==> o == Outcome(core, [], Err(ClockRegression)))
            && (env.now >= core.mem.lastClock && !InTime(core, env.now) ==> o == Outcome(core, [], Err(ExpiredDeadline)))
            && (InTime(core, env.now) && (env.now == armed.value.deadline || BeyondWindow(env.now)) ==>
                  o == Outcome(Latched(core, env.marker), [], Err(LatchError(env.marker)))))
  {
    hide SchemaValid, AppendRecord;
  }

  /** An extension that cannot be numbered or stored as an instant is not written; one that can answers as the append does. */
  lemma RenewalWrites(codec: Codec, core: Core, txId: string, epoch: U64, leaseId: string, tag: WorkerGroupTag, env: Env)
    requires core.store.torn.None? && LeaseHeld(core, txId, epoch, leaseId, tag) && InTime(core, env.now)
    requires env.now < core.mem.armed.value.deadline && !BeyondWindow(env.now)
    requires NextExpiry(core, env.now) > core.mem.armed.value.leaseExpiresAt
    ensures var o := HandleLeaseRenewal(codec, core, txId, epoch, leaseId, tag, env);
      && (core.mem.logSeq == U64_MAX ==> o == Outcome(core, [], Err(SafeModeActive)))
      && (core.mem.logSeq < U64_MAX && env.now < 0 ==> o == Outcome(Latched(core, env.marker), [], Err(LatchError(env.marker))))
      && (core.mem.logSeq < U64_MAX && 0 <= env.now ==>
            && var written := AppendRecord(codec, core, RenewalText(core, env.now), env);
            && o.effects == written.effects && o.core.store == written.core.store
            && (written.reply.Err? ==> o.core == written.core && o.reply == Err(Durability)))
  {
    hide SchemaValid;
  }

  // ----- Requests -----

  /** The deadline of an arm request as an instant: none if the sum of its parts is not one. */
  lemma DeadlinesExactly(secs: U64, nanos: U32)
    ensures var r := RequestDeadline(secs, nanos);
      && (r.Ok? <==> secs * NANOS_PER_SEC + nanos <= MAX_TIME)
      && (r.Ok? ==> r.value == secs * NANOS_PER_SEC + nanos)
      && (r.Err? ==> r.error == if secs + nanos / NANOS_PER_SEC > U64_MAX then Panicked else ExpiredDeadline)
  {
  }

  /**
   Dispatch: in safe mode everything is refused and nothing changes; outside it health is
   acknowledged for the armed transaction only, and a heartbeat does what a renewal does.
   */
  lemma DispatchesExactly(codec: Codec, host: string, core: Core, req: LocalRequest, env: Env)
    requires Usable(core)
    ensures var o := HandleRequest(codec, host, core, req, env);
      && (core.mem.safeMode ==> o == Outcome(core, [], Err(SafeModeActive)))
      && (!core.mem.safeMode && req.ReportHealth? ==>
            o == Outcome(core, [], if core.mem.armed.Some? && core.mem.armed.value.txId == req.txId then Ok(HealthAck(req.requestId))
                                   else Err(UnknownTransaction)))
      && (!core.mem.safeMode && req.RequestDecision? ==> o == HandleDecision(codec, core, req.requestId, req.txId, req.epoch, env))
      && (!core.mem.safeMode && req.Arm? ==>
            var deadline := RequestDeadline(req.deadlineSecs, req.deadlineNanos);
            o == if deadline.Ok? then HandleArm(codec, host, core, req, deadline.value, env) else Outcome(core, [], Err(deadline.error)))
      && (!core.mem.safeMode && (req.RequestLeaseRenewal? || req.Heartbeat?) ==>
            var renewed := HandleLeaseRenewal(codec, core, req.txId, req.epoch, req.leaseId, req.workerGroupTag, env);
            && o.core == renewed.core && o.effects == renewed.effects
            && o.reply == if renewed.reply.Err? then Err(renewed.reply.error)
                          else Ok(if req.Heartbeat? then HeartbeatAck(req.requestId) else LeaseRenewedResponse(req.requestId)))
  {
    hide HandleArm, HandleDecision, HandleLeaseRenewal;
  }

  // ----- Sessions -----

  /** The envelope carries the session's capability and the counter after the last one. */
  predicate Authentic(s: Session, e: RequestEnvelope) {
    e.capability == s.established.capability && e.counter == s.lastCounter + 1
  }

  /** Its host, transaction and epoch are those of the session, inside and out, and its request id is the request's. */
  predicate Addressed(s: Session, e: RequestEnvelope) {
    && e.hostId == e.request.hostId == s.established.hostId
    && e.txId == e.request.txId == s.established.txId
    && e.epoch == e.request.epoch == s.established.epoch
    && e.requestId == e.request.requestId
  }

  /** An envelope is accepted exactly when it is authentic and addressed; each refusal is that of the first test that fails. */
  lemma AcceptsExactly(s: Session, e: RequestEnvelope)
    ensures var refusal := DecodeRequest(s, e);
      && (refusal.None? <==> Authentic(s, e) && Addressed(s, e))
      && (e.capability != s.established.capability ==> refusal == Some(WrongCapability))
      && (e.capability == s.established.capability ==>
            && (s.lastCounter == U64_MAX || e.counter == 0 ==> refusal == Some(WrongCapability))
            && (s.lastCounter < U64_MAX && 1 <= e.counter <= s.lastCounter ==> refusal == Some(ReplayCounter))
            && (e.counter > s.lastCounter + 1 ==> refusal == Some(WrongCapability)))
      && (Authentic(s, e) ==>
            && var outside := e.hostId == s.established.hostId && e.txId == s.established.txId && e.epoch == s.established.epoch;
            && var inside := e.requestId == e.request.requestId && e.hostId == e.request.hostId && e.txId == e.request.txId;
            && (!(outside && inside) ==> refusal == Some(WrongBinding))
            && (outside && inside && e.epoch != e.request.epoch ==> refusal == Some(WrongEpoch)))
  {
  }

  /** The last bind that established session `id` in the process that is up after these actions. */
  function LastBind(config: Config, actions: seq<Action>, id: nat): Option<nat> {
    if actions == [] then None
    else
      var n := |actions| - 1;
      var a, before := actions[n], FromFresh(config, actions[..n]);
      if a.Stop? || before.Down? then None
      else if a.Connect? && a.id == id && BindSession(before.core, a.bind, a.peerIsBroker, a.capability, a.env).reply.Ok? then Some(n)
      else LastBind(config, actions[..n], id)
  }

  /**
   In every run, the sessions are those that were bound in the running process, each with the
   capability of its last bind, and with as many accepted requests since as its counter says.
   */
  lemma {:induction false} SessionsAreBound(config: Config, actions: seq<Action>, id: nat)
    ensures var sys, bound := FromFresh(config, actions), LastBind(config, actions, id);
      && (bound.Some? <==> sys.Up? && id in sys.sessions)
      && (bound.Some? ==>
            && bound.value < |actions| && actions[bound.value].Connect?
            && var s := sys.sessions[id];
            && s.established.capability == actions[bound.value].capability
            && s.established.hostId == actions[bound.value].bind.hostId && s.established.txId == actions[bound.value].bind.txId
            && var since := FromFresh(config, actions[..bound.value + 1]);
            && since.Up? && id in since.sessions
            && s.lastCounter == |AcceptedCounters(config, since, id, actions[bound.value + 1..])|)
  {
    hide Step, DecodeRequest, AcceptedBy, AcceptedCounters, BindSession;
    if actions != [] {
      var n := |actions| - 1;
      var init, a := actions[..n], actions[n];
      SessionsAreBound(config, init, id);
      SessionStep(config, FromFresh(config, init), a, id);
      var bound := LastBind(config, actions, id);
      if bound == Some(n) {
        assert actions[..n + 1] == actions && actions[n + 1..] == [];
        NothingAccepted(config, FromFresh(config, actions), id);
      } else if bound.Some? {
        var k := bound.value;
        assert init[..k + 1] == actions[..k + 1];
        assert init[k + 1..] + [a] == actions[k + 1..];
        assert init[..k + 1] + init[k + 1..] == init;
        RunSplits(config, Down(FRESH_STORE), init[..k + 1], init[k + 1..]);
        OneMoreCounter(config, FromFresh(config, init[..k + 1]), id, init[k + 1..], a);
      }
    }
  }

  lemma NothingAccepted(config: Config, sys: System, id: nat)
    requires SystemUsable(sys)
    ensures AcceptedCounters(config, sys, id, []) == []
  {
  }

  lemma OneMoreCounter(config: Config, sys: System, id: nat, actions: seq<Action>, a: Action)
    requires SystemUsable(sys)
    ensures |AcceptedCounters(config, sys, id, actions + [a])| ==
            |AcceptedCounters(config, sys, id, actions)| + if AcceptedBy(Run(config, sys, actions), id, a) then 1 else 0
  {
    hide AcceptedBy;
    assert (actions + [a])[..|actions|] == actions;
  }

  /** A step establishes session `id`, ends it with the process, or counts its accepted requests. */
  lemma SessionStep(config: Config, sys: System, a: Action, id: nat)
    requires SystemUsable(sys)
    ensures var after := Step(config, sys, a).sys;
      if a.Stop? || sys.Down? then after.Down? || after.sessions == map[]
      else
        && after.Up?
        && if a.Connect? && a.id == id && BindSession(sys.core, a.bind, a.peerIsBroker, a.capability, a.env).reply.Ok? then
             && id in after.sessions
             && after.sessions[id] == Session(BindSession(sys.core, a.bind, a.peerIsBroker, a.capability, a.env).reply.value, 0)
             && after.sessions[id].established.capability == a.capability
             && after.sessions[id].established.hostId == a.bind.hostId && after.sessions[id].established.txId == a.bind.txId
           else
             && (id in after.sessions <==> id in sys.sessions)
             && (id in sys.sessions ==>
                   && after.sessions[id].established == sys.sessions[id].established
                   && after.sessions[id].lastCounter == sys.sessions[id].lastCounter + if AcceptedBy(sys, id, a) then 1 else 0)
  {
    hide HandleRequest;
  }

  /**
   A bind is granted exactly to the broker, outside safe mode, with a readable epoch that can still
   advance if nothing is bound yet, and otherwise under the very binding that holds.
   */
  lemma BindsExactly(core: Core, bind: SessionBind, peerIsBroker: bool, capability: seq<Byte>, env: Env)
    ensures var o, held := BindSession(core, bind, peerIsBroker, capability, env), core.mem.binding;
      && (o.reply.Ok? <==>
            && !core.mem.safeMode && peerIsBroker
            && (held.None? ==> EpochAhead(core, env))
            && (held.Some? ==> held.value == BoundSession(bind.hostId, bind.txId, bind.epoch, bind.leaseId, bind.workerGroupTag)))
      && (o.reply.Ok? ==>
            && var epoch := if held.None? then core.store.epochFile.epoch + 1 else bind.epoch;
            && o.core == core.(mem := core.mem.(binding := Some(
                 BoundSession(bind.hostId, bind.txId, epoch, bind.leaseId, bind.workerGroupTag))))
            && o.reply.value == SessionEstablished(capability, bind.hostId, bind.txId, epoch))
      && (held.None? && !EpochAhead(core, env) ==> o == Outcome(Latched(core, env.marker), [], Err(LatchError(env.marker))))
      && (held.Some? || EpochAhead(core, env) ==>
            && (core.mem.safeMode ==> o == Outcome(core, [], Err(SafeModeActive)))
            && (!core.mem.safeMode && !peerIsBroker ==> o == Outcome(core, [], Err(WrongPeer)))
            && (!core.mem.safeMode && peerIsBroker && o.reply.Err? ==> o == Outcome(core, [], Err(StaleReconnect))))
  {
  }

  /** In every run, every session was bound by the broker. */
  lemma SessionsAreBrokers(config: Config, actions: seq<Action>, id: nat)
    ensures var bound := LastBind(config, actions, id);
      bound.Some? ==> bound.value < |actions| && actions[bound.value].Connect? && actions[bound.value].peerIsBroker
  {
    SessionsAreBound(config, actions, id);
    LastBindIsGranted(config, actions, id);
  }

  lemma {:induction false} LastBindIsGranted(config: Config, actions: seq<Action>, id: nat)
    ensures var bound := LastBind(config, actions, id);
      bound.Some? ==> bound.value < |actions| && actions[bound.value].Connect? && actions[bound.value].peerIsBroker
  {
    if actions != [] {
      LastBindIsGranted(config, actions[..|actions| - 1], id);
    }
  }

  // ----- Startup -----

  /** No marker, a sound topology, a log the strict reader accepts, and a floor to compare with. */
  predicate Openable(codec: Codec, store: Store, env: StartEnv) {
    !store.marker && env.topology.Sound? && env.logReadable && LogAccepted(codec, store) && env.floor.Some?
  }

  /** A store that was used before, or is said to have been. */
  predicate Used(store: Store, isReopen: bool) {
    isReopen || store.log != [] || store.epochFile != Missing
  }

  /** The epoch file can be read and is not below the floor. */
  predicate EpochSound(store: Store, env: StartEnv)
    requires env.floor.Some?
  {
    env.epochReadable && store.epochFile.HighWater? && env.floor.value <= store.epochFile.epoch
  }

  /** It is the last record's epoch, or zero where there is no record. */
  predicate EpochMatches(store: Store)
    requires store.epochFile.HighWater?
  {
    store.epochFile.epoch == if store.log == [] then 0 else store.log[|store.log| - 1].epoch
  }

  lemma {:induction false} MaxEpochIsLast(log: seq<AuthorityRecord>)
    requires forall i :: 0 < i < |log| ==> log[i - 1].epoch <= log[i].epoch
    ensures log != [] ==> MaxEpoch(log) == log[|log| - 1].epoch
  {
    if |log| > 1 {
      var init := log[..|log| - 1];
      assert forall i :: 0 < i < |init| ==> init[i - 1].epoch <= init[i].epoch by {
        forall i | 0 < i < |init| ensures init[i - 1].epoch <= init[i].epoch {
          assert log[i - 1].epoch <= log[i].epoch;
        }
      }
      MaxEpochIsLast(init);
    }
  }

  lemma AcceptedEpochs(codec: Codec, store: Store)
    requires LogAccepted(codec, store)
    ensures store.log != [] ==> MaxEpoch(store.log) == store.log[|store.log| - 1].epoch
  {
    var log := store.log;
    forall i | 0 < i < |log| ensures log[i - 1].epoch <= log[i].epoch {
      assert InOrder(log[i], i, EpochBefore(log, i, 0));
    }
    MaxEpochIsLast(log);
  }

  /**
   A start succeeds exactly when the store is openable, its log replays, and either it was used and
   its epoch is sound (and, reopened or with records, matches them), or it is new and the first
   epoch can be written. It then resumes with what the log says.
   */
  lemma StartsExactly(codec: Codec, store: Store, isReopen: bool, env: StartEnv)
    ensures var s := Startup(codec, store, isReopen, env);
      s.reply.Ok? <==>
        && Openable(codec, store, env)
        && (if Used(store, isReopen) then EpochSound(store, env) && (isReopen || store.log != [] ==> EpochMatches(store))
            else !env.epochDirFails && env.firstEpochWrite.Written?)
        && Replay(store.log).Some? && |store.log| <= U64_MAX
    ensures var s := Startup(codec, store, isReopen, env);
      s.reply.Ok? ==>
        && s.store == (if Used(store, isReopen) then store else store.(epochFile := HighWater(0)))
        && var mem, active := s.reply.value, Replay(store.log).value;
        && !mem.safeMode && mem.logSeq == |store.log|
        && (active.None? ==> mem == Memory(false, None, None, |store.log|, 0))
        && (active.Some? ==>
              && var a := active.value;
              && mem.binding == Some(a.binding) && mem.lastClock == a.lastActivity
              && mem.armed == Some(ArmedState(a.binding.hostId, a.binding.txId, a.binding.epoch, a.base, a.binding.leaseId,
                                              a.binding.workerGroupTag, a.armedAt, a.deadline, a.leaseExpiresAt, a.chosen)))
  {
    hide LogAccepted, Replay, MaxEpoch;
    if LogAccepted(codec, store) {
      AcceptedEpochs(codec, store);
    }
  }

  /** Each refusal to start is that of the first test that fails; what it may leave behind is a marker or a first epoch. */
  lemma StartRefusals(codec: Codec, store: Store, isReopen: bool, env: StartEnv)
    ensures var s := Startup(codec, store, isReopen, env);
      && (store.marker ==> s == Started(store, Err(SafeModeAtStartup)))
      && (!store.marker && !env.topology.Sound? ==>
            && s.reply == Err(if env.topology.Unwritable? && env.markerFails then SafeModePersistUnavailable else Topology)
            && s.store == if env.topology.Unwritable? && env.markerStored then store.(marker := true) else store)
      && (!store.marker && env.topology.Sound? && !Openable(codec, store, env) ==> s == Started(store, Err(SafeModeAtStartup)))
      && (Openable(codec, store, env) && Used(store, isReopen) ==>
            && s.store == store
            && (!(env.epochReadable && store.epochFile.HighWater?) ==> s.reply == Err(EpochLogMismatch))
            && (env.epochReadable && store.epochFile.HighWater? && !EpochSound(store, env) ==> s.reply == Err(SafeModeAtStartup))
            && (EpochSound(store, env) && (isReopen || store.log != []) && !EpochMatches(store) ==> s.reply == Err(EpochLogMismatch)))
      && (Openable(codec, store, env) && !Used(store, isReopen) ==>
            && (env.epochDirFails ==> s == Started(store, Err(StartupDurability)))
            && (!env.epochDirFails && !env.firstEpochWrite.Written? ==>
                  && s.reply == Err(StartupDurability)
                  && s.store.log == store.log && s.store.marker == store.marker
                  && (s.store.epochFile.HighWater? ==> s.store.epochFile.epoch == 0)))
  {
    hide LogAccepted, Replay, MaxEpoch;
    if LogAccepted(codec, store) {
      AcceptedEpochs(codec, store);
    }
  }
}
