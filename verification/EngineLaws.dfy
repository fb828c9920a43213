/**
 What the engine answers and records, call by call, decided by the call, the table and the
 environment alone; and how each commit ends under each fate of its writes.
 */
module EngineLaws {
  import opened Wrappers
  import opened TxStates
  import opened Wal
  import opened Events
  import opened Idempotency
  import opened Recovery
  import opened EngineModel
  import opened EngineTraces
  import opened EngineRuns

  // ----- Steps -----

  /** The call's transaction is in the table and belongs to the caller's agent and manifest. */
  predicate Owned(e: Engine, call: Call)
    requires !call.Propose?
  {
    && call.txId in e.mem.txs
    && e.mem.txs[call.txId].identity.agentId == call.agentId && e.mem.txs[call.txId].identity.manifestDigest == call.digest
  }

  /** The record of a step: the next number, the transaction's own identity, the call's key if it has one. */
  function StepRecord(e: Engine, call: Call, state: TxState): WalRecord
    requires !call.Propose? && call.txId in e.mem.txs
  {
    WalRecord(1, e.mem.nextSeq + 1, call.txId, state,
              if call.ApplyTx? then Some(call.key) else None, if call.ApplyTx? then Some(call.fingerprint) else None,
              e.mem.txs[call.txId].identity, None, Some(StepResult(call.txId, state)))
  }

  /** A test does its work exactly on the caller's Proposed transaction; each refusal is that of the first test that fails. */
  lemma TestsExactly(hash: HashFunction, e: Engine, call: Call, env: Env)
    requires call.Test?
    ensures var o, work := Perform(hash, e, call, env), WorkFor(e, call, env);
      && (work.Committing? <==> !e.mem.safeMode && Owned(e, call) && e.mem.txs[call.txId].state == Proposed)
      && (work.Committing? ==> work == Work.Committing(Stepping, StepRecord(e, call, Testing), None))
      && (o.reply.Ok? ==> work.Committing? && o.reply.value == StepReply(call.txId, Testing))
      && (!work.Committing? ==>
            o == Refused(e, if e.mem.safeMode then SafeMode else if call.txId !in e.mem.txs then NotFound
                            else if !Owned(e, call) then OwnershipMismatch else InvalidTransition))
      && (work.Committing? && env.faults == NO_FAULTS ==> o.reply == Ok(StepReply(call.txId, Testing)))
  {
    hide Commit;
    CallDoesItsWork(hash, e, call, env, env.faults);
    FaultFreeStepIsDone(hash, e, call, env);
  }

  /** An advance does its work exactly on the caller's Applying transaction; from Probation on it is the watchdog's. */
  lemma AdvancesExactly(hash: HashFunction, e: Engine, call: Call, env: Env)
    requires call.Advance?
    ensures var o, work := Perform(hash, e, call, env), WorkFor(e, call, env);
      && (work.Committing? <==> !e.mem.safeMode && Owned(e, call) && e.mem.txs[call.txId].state == Applying)
      && (work.Committing? ==> work == Work.Committing(Stepping, StepRecord(e, call, Probation), None))
      && (o.reply.Ok? ==> work.Committing? && o.reply.value == StepReply(call.txId, Probation))
      && (!work.Committing? ==>
            o == Refused(e, if e.mem.safeMode then SafeMode else if call.txId !in e.mem.txs then NotFound
                            else if e.mem.txs[call.txId].state == Probation then WatchdogAuthorityRequired
                            else if !Owned(e, call) then OwnershipMismatch else InvalidTransition))
      && (work.Committing? && env.faults == NO_FAULTS ==> o.reply == Ok(StepReply(call.txId, Probation)))
  {
    hide Commit;
    CallDoesItsWork(hash, e, call, env, env.faults);
    FaultFreeStepIsDone(hash, e, call, env);
  }

  lemma FaultFreeStepIsDone(hash: HashFunction, e: Engine, call: Call, env: Env)
    requires call.Test? || call.Advance?
    ensures WorkFor(e, call, env).Committing? && env.faults == NO_FAULTS ==> Perform(hash, e, call, env).reply.Ok?
  {
    hide Commit;
    if WorkFor(e, call, env).Committing? {
      var Committing(flow, r, entry) := WorkFor(e, call, env);
      CompleteCommit(hash, flow, e, r, entry);
    }
  }

  /** The key is new: neither the index nor the log, as far as it can be read, knows it. */
  predicate NewKey(e: Engine, call: Call, env: Env)
    requires call.Propose? || call.ApplyTx?
  {
    && KeyOf(call) !in e.mem.entries
    && (env.walReadable ==> LookupIn(e.disk.wal.records, KeyOf(call), call.fingerprint).Missing?)
  }

  /**
   An apply under a new key commits exactly for the owner: on the base the transaction was proposed
   on, if it is being tested, as Applying; on any other base, in whatever state, as Rejected.
   */
  lemma AppliesExactly(hash: HashFunction, e: Engine, call: Call, env: Env)
    requires call.ApplyTx? && !e.mem.safeMode && NewKey(e, call, env)
    ensures var o, work := Perform(hash, e, call, env), WorkFor(e, call, env);
      && (work.Committing? <==>
            Owned(e, call) && (e.mem.txs[call.txId].identity.baseRevision == env.currentBase ==> e.mem.txs[call.txId].state == Testing))
      && (work.Committing? ==>
            && var moved := e.mem.txs[call.txId].identity.baseRevision != env.currentBase;
            && var state := if moved then Rejected else Applying;
            && work == Work.Committing(if moved then Refusing else Stepping, StepRecord(e, call, state),
                                  Some(IndexEntry(KeyOf(call), call.txId, call.fingerprint, StepResult(call.txId, state))))
            && (o.reply.Ok? ==> !moved && o.reply.value == StepReply(call.txId, Applying))
            && (env.faults == NO_FAULTS ==>
                  o.reply == if moved then Err(BaseRevisionMoved) else Ok(StepReply(call.txId, Applying))))
      && (!work.Committing? ==>
            o == Refused(e, if call.txId !in e.mem.txs then NotFound else if !Owned(e, call) then OwnershipMismatch else InvalidTransition))
  {
    hide Commit, LookupIn;
    CallDoesItsWork(hash, e, call, env, env.faults);
    if WorkFor(e, call, env).Committing? {
      var Committing(flow, r, entry) := WorkFor(e, call, env);
      CompleteCommit(hash, flow, e, r, entry);
    }
  }

  /** The record of a proposal: a fresh transaction with all that was staged, on the base of the moment. */
  function ProposalRecord(e: Engine, call: Call, env: Env): WalRecord
    requires call.Propose? && env.staged.Ok?
  {
    var s := env.staged.value;
    WalRecord(1, e.mem.nextSeq + 1, env.freshTxId, Proposed, Some(call.key), Some(call.fingerprint),
              Identity(call.agentId, call.digest, env.currentBase, [D], s.diff, s.affectedResources), None,
              Some(ProposeResult(env.freshTxId, s.diff, s.testPlan, s.affectedResources, env.currentBase, s.candidateClosure)))
  }

  /** A proposal under a new key commits exactly when the adapter stages it. */
  lemma ProposesExactly(hash: HashFunction, e: Engine, call: Call, env: Env)
    requires call.Propose? && !e.mem.safeMode && NewKey(e, call, env)
    ensures var o, work := Perform(hash, e, call, env), WorkFor(e, call, env);
      && (work.Committing? <==> env.staged.Ok?)
      && (env.staged.Err? ==> o == Refused(e, ProposeRejected(env.staged.error)))
      && (env.staged.Ok? ==>
            && var r, s := ProposalRecord(e, call, env), env.staged.value;
            && work == Work.Committing(Proposing, r, Some(IndexEntry(KeyOf(call), env.freshTxId, call.fingerprint, r.result.value)))
            && var answer := ProposeReply(env.freshTxId, s.diff, s.testPlan, s.affectedResources, env.currentBase);
            && (o.reply.Ok? ==> o.reply.value == answer)
            && (env.faults == NO_FAULTS ==> o.reply == Ok(answer)))
  {
    hide Commit, LookupIn;
    CallDoesItsWork(hash, e, call, env, env.faults);
    if WorkFor(e, call, env).Committing? {
      var Committing(flow, r, entry) := WorkFor(e, call, env);
      CompleteCommit(hash, flow, e, r, entry);
    }
  }

  /** What a stored result says to a call of this kind. */
  function StoredAnswer(call: Call, result: StoredResult): Result<Reply, EngineError>
    requires call.Propose? || call.ApplyTx?
  {
    if call.Propose? then
      match result
      case ProposeResult(tx, diff, plan, affected, base, _) => Ok(ProposeReply(tx, diff, plan, affected, base))
      case StepResult(_, _) => Err(IdempotencyConflict)
    else
      match result
      case ProposeResult(_, _, _, _, _, _) => Err(IdempotencyConflict)
      case StepResult(tx, state) => if state == Rejected then Err(BaseRevisionMoved) else Ok(StepReply(tx, state))
  }

  /**
   A key in the index answers without touching anything: the stored result for the same parameters,
   a conflict for others; and nothing is answered in safe mode.
   */
  lemma KnownKeysAnswer(hash: HashFunction, e: Engine, call: Call, env: Env)
    requires call.Propose? || call.ApplyTx?
    ensures var o := Perform(hash, e, call, env);
      && (e.mem.safeMode ==> o == Refused(e, SafeMode))
      && (!e.mem.safeMode && KeyOf(call) in e.mem.entries ==>
            && var entry := e.mem.entries[KeyOf(call)];
            && o.engine == e && o.trace == []
            && o.reply == if entry.fingerprint == call.fingerprint then StoredAnswer(call, entry.result) else Err(IdempotencyConflict))
  {
    hide Commit, LookupIn;
  }

  /**
   A key found only in the log is a conflict for other parameters; for the same ones it is written
   back to the index, a proposal's event is appended once more, and the stored result is the answer
   unless one of these two writes fails.
   */
  lemma LoggedKeysAnswer(hash: HashFunction, e: Engine, call: Call, env: Env)
    requires call.Propose? || call.ApplyTx?
    requires !e.mem.safeMode && KeyOf(call) !in e.mem.entries && env.walReadable
    ensures var o, found, f := Perform(hash, e, call, env), LookupIn(e.disk.wal.records, KeyOf(call), call.fingerprint), env.faults;
      && (found.Conflict? ==> o == Refused(e, IdempotencyConflict))
      && (found.Found? ==>
            && var entry, answer := found.entry, StoredAnswer(call, found.entry.result);
            && o.engine.disk.wal == e.disk.wal && o.engine.mem.txs == e.mem.txs && o.engine.mem.nextSeq == e.mem.nextSeq
            && (call.Propose? && answer.Err? ==> o == Refused(e, answer.error))
            && (call.ApplyTx? || answer.Ok? ==>
                  && o.engine.disk.index == IndexWith(hash, e.disk.index, Some(entry), f.indexIo)
                  && o.engine.mem.entries == (if f.indexIo.Completed? then e.mem.entries[entry.key := entry] else e.mem.entries)
                  && (f.indexIo.FailedAfter? ==> o.reply == Err(Storage) && o.engine.mem == e.mem && o.engine.disk.events == e.disk.events)
                  && (f.indexIo.Completed? && call.ApplyTx? ==>
                        o.reply == answer && o.engine.disk.events == e.disk.events && !o.engine.mem.safeMode)
                  && (f.indexIo.Completed? && call.Propose? ==>
                        && o.engine.mem.eventMeta == e.mem.eventMeta.(nextSeq := e.mem.eventMeta.nextSeq + 1)
                        && (o.engine.mem.safeMode <==> f.eventIo.FailedAfter?)
                        && o.reply == if f.eventIo.FailedAfter? then Err(SafeMode) else answer)))
  {
    hide LookupIn, EventRun, Commit;
    FoundIsFor(e.disk.wal.records, KeyOf(call), call.fingerprint);
  }

  /** A record that decides about a key: it carries it, and either its parameters differ or it holds a result. */
  predicate Decides(r: WalRecord, key: IdemKey, fingerprint: string) {
    Carries(r, key) && (r.fingerprint.GetOr("") != fingerprint || r.result.Some?)
  }

  /** The newest deciding record decides. */
  lemma {:induction false} NewestDecides(records: seq<WalRecord>, key: IdemKey, fingerprint: string, i: nat)
    requires i < |records| && Decides(records[i], key, fingerprint)
    requires forall j :: i < j < |records| ==> !Decides(records[j], key, fingerprint)
    ensures LookupIn(records, key, fingerprint) ==
            if records[i].fingerprint.GetOr("") != fingerprint then Conflict
            else Found(IndexEntry(key, records[i].txId, fingerprint, records[i].result.value))
  {
    hide Carries;
    var n := |records| - 1;
    if i < n {
      assert !Decides(records[n], key, fingerprint);
      NewestDecides(records[..n], key, fingerprint, i);
    }
  }

  /** Without a deciding record the key is unknown. */
  lemma {:induction false} UndecidedIsMissing(records: seq<WalRecord>, key: IdemKey, fingerprint: string)
    requires forall i :: 0 <= i < |records| ==> !Decides(records[i], key, fingerprint)
    ensures LookupIn(records, key, fingerprint) == Missing
  {
    hide Carries;
    if records != [] {
      assert !Decides(records[|records| - 1], key, fingerprint);
      UndecidedIsMissing(records[..|records| - 1], key, fingerprint);
    }
  }

  lemma {:induction false} FoundIsFor(records: seq<WalRecord>, key: IdemKey, fingerprint: string)
    ensures var found := LookupIn(records, key, fingerprint);
      found.Found? ==> found.entry.key == key
  {
    if records != [] {
      FoundIsFor(records[..|records| - 1], key, fingerprint);
    }
  }

  // ----- How a commit ends -----

  /** The record was appended, and the error came later. */
  predicate PastAppend(e: Engine, f: Faults) {
    !e.mem.safeMode && f.walIo.Completed?
  }

  /** An append that fails leaves the table and the mode as they were; the number is used up. */
  lemma AppendErrors(hash: HashFunction, flow: Flow, e: Engine, r: WalRecord, entry: Option<IndexEntry>, f: Faults)
    requires !flow.Stepping? ==> entry.Some?
    ensures var o := Commit(hash, flow, e, r, entry, f);
      && (e.mem.safeMode ==> o == Refused(e, SafeMode))
      && (!e.mem.safeMode && f.walIo.FailedAfter? ==>
            o.reply == Err(Storage) && o.engine.mem == e.mem.(nextSeq := r.seqNo)
            && o.engine.disk.events == e.disk.events && o.engine.disk.index == e.disk.index)
  {
    hide WalRun;
  }

  /** The memory after the record, and after record and entry. */
  function Recorded(e: Engine, r: WalRecord): Memory {
    e.mem.(nextSeq := r.seqNo, txs := e.mem.txs[r.txId := TxSnapshot(r.txId, r.state, r.identity)])
  }

  function Entered(mem: Memory, entry: Option<IndexEntry>): Memory {
    if entry.None? then mem else mem.(entries := mem.entries[entry.value.key := entry.value])
  }

  function Told(mem: Memory, failed: bool): Memory {
    mem.(eventMeta := mem.eventMeta.(nextSeq := mem.eventMeta.nextSeq + 1), safeMode := mem.safeMode || failed)
  }

  /** What taking the record back leaves of the memory: safe mode, unless the removal itself fails. */
  function TakenBack(mem: Memory, r: WalRecord, io: Io): Memory {
    if !RevertSucceeds(r.seqNo, io) then mem
    else mem.(txs := mem.txs - {r.txId}, nextSeq := if r.seqNo == 0 then 0 else r.seqNo - 1, safeMode := true)
  }

  function Forgotten(mem: Memory, entry: Option<IndexEntry>, f: Faults): Memory {
    if entry.None? || f.removeIo == FailedAfter(0) then mem else mem.(entries := mem.entries - {entry.value.key})
  }

  /**
   An index error after the record: a proposal keeps its record and stays in service; a step is
   taken back; a refusal keeps record and event. The caller is told of a storage error.
   */
  lemma IndexErrors(hash: HashFunction, flow: Flow, e: Engine, r: WalRecord, entry: Option<IndexEntry>, f: Faults)
    requires entry.Some? && PastAppend(e, f) && f.indexIo.FailedAfter?
    requires flow.Refusing? ==> f.eventIo.Completed?
    ensures var o, mem := Commit(hash, flow, e, r, entry, f), Recorded(e, r);
      && o.reply == Err(Storage)
      && o.engine.mem == (match flow
                          case Proposing => mem
                          case Stepping => TakenBack(mem, r, f.revertIo)
                          case Refusing => Told(mem, false))
  {
    hide WalRun, EventRun, InsertedFiles;
  }

  /**
   An event error after the record latches safe mode whatever the flow. The record is taken back; a
   proposal or step also forgets its entry, a refusal restores the table from before it. The caller is
   told of safe mode, or of a storage error if the record could not be taken back.
   */
  lemma EventErrors(hash: HashFunction, flow: Flow, e: Engine, r: WalRecord, entry: Option<IndexEntry>, f: Faults)
    requires !flow.Stepping? ==> entry.Some?
    requires PastAppend(e, f) && f.eventIo.FailedAfter? && (flow.Refusing? || entry.None? || f.indexIo.Completed?)
    ensures var o, mem := Commit(hash, flow, e, r, entry, f), Recorded(e, r);
      && var back := RevertSucceeds(r.seqNo, f.revertIo);
      && o.reply == Err(if back then SafeMode else Storage) && o.engine.mem.safeMode
      && o.engine.mem ==
           if flow.Refusing? then
             var told := Told(mem, true);
             if back then told.(txs := e.mem.txs, nextSeq := if r.seqNo == 0 then 0 else r.seqNo - 1) else told
           else
             var told := Told(Entered(mem, entry), true);
             if back then Forgotten(TakenBack(told, r, f.revertIo), entry, f) else told
  {
    hide WalRun, EventRun, InsertedFiles, RemovedFiles;
  }

  /** Without an error: the record in the table, the entry in the index, the event told, and success. */
  lemma NoErrors(hash: HashFunction, flow: Flow, e: Engine, r: WalRecord, entry: Option<IndexEntry>, f: Faults)
    requires !flow.Stepping? ==> entry.Some?
    requires PastAppend(e, f) && f.eventIo.Completed? && (entry.None? || f.indexIo.Completed?)
    ensures var o := Commit(hash, flow, e, r, entry, f);
      o.reply == Ok(()) && o.engine.mem == Told(Entered(Recorded(e, r), entry), false)
  {
    hide WalRun, EventRun, InsertedFiles;
  }

  /** The log after the record alone, and after the attempt to take it back. */
  function WalWith(e: Engine, r: WalRecord): WalDisk {
    WalRun(e.disk.wal, AppendSteps(r), Completed)
  }

  function WalAgainWithout(e: Engine, r: WalRecord, f: Faults): WalDisk {
    WalRun(WalWith(e, r), RevertSteps(r.seqNo), f.revertIo)
  }

  /** The event log after one event about the record's transaction and state, under the next number. */
  function EventsWith(e: Engine, r: WalRecord, io: Io): EventDisk {
    var meta := e.mem.eventMeta;
    EventRun(e.disk.events, EventSteps(StoredEvent(meta.nextSeq, TX_STATE_KIND, TxStatePayload(r.txId, r.state)),
                                       EventMeta(meta.logId, meta.nextSeq + 1)), io)
  }

  function IndexWith(hash: HashFunction, files: IndexDisk, entry: Option<IndexEntry>, io: Io): IndexDisk {
    if entry.None? || (io.FailedAfter? && io.done < 2) then files else files[hash(entry.value.key) := entry.value]
  }

  /** The disk after a proposal or step: every write as far as its fate let it, and the revert where there is one. */
  lemma CommitDisks(hash: HashFunction, flow: Flow, e: Engine, r: WalRecord, entry: Option<IndexEntry>, f: Faults)
    requires !flow.Refusing? && (flow.Proposing? ==> entry.Some?) && PastAppend(e, f)
    ensures var d, files := Commit(hash, flow, e, r, entry, f).engine.disk, e.disk.index;
      if entry.Some? && f.indexIo.FailedAfter? then
        && d.index == IndexWith(hash, files, entry, f.indexIo) && d.events == e.disk.events
        && d.wal == if flow.Stepping? then WalAgainWithout(e, r, f) else WalWith(e, r)
      else
        && d.events == EventsWith(e, r, f.eventIo)
        && d.wal == (if f.eventIo.FailedAfter? then WalAgainWithout(e, r, f) else WalWith(e, r))
        && var entered := IndexWith(hash, files, entry, Completed);
        && d.index == if f.eventIo.Completed? || entry.None? || !RevertSucceeds(r.seqNo, f.revertIo) || f.removeIo == FailedAfter(0)
                      then entered else entered - {hash(entry.value.key)}
  {
    hide WalRun, EventRun, EventSteps, AppendSteps, RevertSteps, RevertSucceeds, SnapOf;
  }

  /** The disk after a refusal: the event comes before the index entry, and its error takes the record back. */
  lemma RefusalDisks(hash: HashFunction, e: Engine, r: WalRecord, entry: IndexEntry, f: Faults)
    requires PastAppend(e, f)
    ensures var d := Commit(hash, Refusing, e, r, Some(entry), f).engine.disk;
      && d.events == EventsWith(e, r, f.eventIo)
      && (f.eventIo.FailedAfter? ==> d.wal == WalAgainWithout(e, r, f) && d.index == e.disk.index)
      && (f.eventIo.Completed? ==> d.wal == WalWith(e, r) && d.index == IndexWith(hash, e.disk.index, Some(entry), f.indexIo))
  {
    hide WalRun, EventRun, EventSteps, AppendSteps, RevertSteps, RevertSucceeds, SnapOf;
  }

  /** A revert counts as done when all of it was, or when only the very first checkpoint could not be removed. */
  lemma RevertsExactly(seqNo: nat, io: Io)
    ensures RevertSucceeds(seqNo, io) <==> io == Completed || (seqNo <= 1 && io != FailedAfter(0))
  {
  }

  // ----- Opening -----

  /**
   The engine opens outside safe mode exactly on a directory of records 1 to n with the checkpoint at
   n, a readable log of events 1 to k with k + 1 next, records of version 1 that form paths of one
   identity, and events that speak of transactions and lag behind the records at most.
   */
  lemma OpensExactly(hash: HashFunction, disk: Disk, newLogId: string)
    requires Named(hash, disk.index)
    ensures var o, records, events := Opened(hash, disk, newLogId), disk.wal.records, disk.events;
      !o.mem.safeMode <==>
        && disk.wal.temps == {} && Numbered(records) && disk.wal.checkpoint.GetOr(0) == |records|
        && (events.tail == Clean || events.tail == Unended) && EventsNumbered(events.lines)
        && (if events.meta.Some? then events.meta.value.nextSeq else 1) == |events.lines| + 1
        && (forall i :: 0 <= i < |records| ==> records[i].version == 1) && PathsOnly(records)
        && EventsSpeak(events.lines) && EventsLag(records, events.lines)
  {
    hide Path, OneIdentity, SemanticsOk, EventsMatch, Merged, Loaded, RecordsOf, TableOf, EventsNumbered, Numbered, MaxSeq, Recovered,
         EventsSpeak, EventsLag, PathsOnly, Intact;
    var records, lines := disk.wal.records, disk.events.lines;
    RecoveredExactly(disk.wal);
    RecoveredIs(disk.wal);
    IntactExactly(OpenedEvents(disk.events, newLogId), OpenedEvents(disk.events, newLogId).meta.value.nextSeq);
    if Numbered(records) {
      SemanticsExactly(records);
      EventsMatchExactly(records, lines);
    }
  }

  /** It then holds for each transaction what its last record says, and goes on with the number n; in safe mode it holds nothing. */
  lemma OpensWith(hash: HashFunction, disk: Disk, newLogId: string)
    requires Named(hash, disk.index)
    ensures var o, records := Opened(hash, disk, newLogId), disk.wal.records;
      && (o.mem.safeMode ==> o.mem.txs == map[] && o.mem.nextSeq == 0)
      && (!o.mem.safeMode ==>
            && o.mem.nextSeq == |records|
            && (forall tx :: tx in o.mem.txs <==> RecordsOf(records, tx) != [])
            && forall tx :: tx in o.mem.txs ==>
                 && RecordsOf(records, tx) != []
                 && var chain := RecordsOf(records, tx);
                 o.mem.txs[tx] == TxSnapshot(tx, chain[|chain| - 1].state, chain[|chain| - 1].identity))
      && o.mem.eventMeta == disk.events.meta.GetOr(EventMeta(newLogId, 1))
  {
    hide SemanticsOk, EventsMatch, Merged, Loaded, TableOf, Numbered, MaxSeq, Recovered, Intact;
    RecoveredExactly(disk.wal);
    RecoveredIs(disk.wal);
    if Numbered(disk.wal.records) {
      MaxOfNumbered(disk.wal.records);
    }
    forall tx
      ensures tx in TableOf(disk.wal.records) <==> RecordsOf(disk.wal.records, tx) != []
      ensures var chain := RecordsOf(disk.wal.records, tx);
        chain != [] ==> TableOf(disk.wal.records)[tx] == SnapOf(chain[|chain| - 1])
    {
      TableHoldsLast(disk.wal.records, tx);
    }
  }

  /** Every event about a transaction's state names the transaction and the state. */
  predicate EventsSpeak(lines: seq<StoredEvent>) {
    forall i :: 0 <= i < |lines| && lines[i].kind == TX_STATE_KIND ==>
                  lines[i].payload.TxStatePayload? && lines[i].payload.txId != ""
  }

  /** For each transaction the events report a beginning of its records. */
  ghost predicate EventsLag(records: seq<WalRecord>, lines: seq<StoredEvent>) {
    forall tx :: tx != "" ==> EventStates(lines, tx) <= States(RecordsOf(records, tx))
  }

  lemma SpeakExactly(lines: seq<StoredEvent>)
    ensures EventsSpeak(lines) <==> forall i :: 0 <= i < |lines| ==> EventReadable(lines[i])
  {
    if EventsSpeak(lines) {
      forall i | 0 <= i < |lines| ensures EventReadable(lines[i]) {
      }
    } else {
      var i :| 0 <= i < |lines| && lines[i].kind == TX_STATE_KIND && !(lines[i].payload.TxStatePayload? && lines[i].payload.txId != "");
      assert !EventReadable(lines[i]);
    }
  }

  lemma EventsMatchExactly(records: seq<WalRecord>, lines: seq<StoredEvent>)
    requires Numbered(records)
    ensures EventsMatch(records, lines) <==> EventsSpeak(lines) && EventsLag(records, lines)
  {
    hide RecordsOf, EventStates, ChainOf, EventReadable, EventsSpeak, Numbered;
    SpeakExactly(lines);
    forall tx ensures ChainOf(records, tx) == RecordsOf(records, tx) {
      ChainOfNumbered(records, tx);
    }
    if !EventsLag(records, lines) {
      var tx :| tx != "" && !(EventStates(lines, tx) <= States(RecordsOf(records, tx)));
      assert !(EventStates(lines, tx) <= States(ChainOf(records, tx)));
    }
  }

  /** The index entry a record stands for: a proposal's, an apply's, or a moved-base refusal's, under the record's own key. */
  lemma MergesExactly(r: WalRecord)
    ensures var op := if r.state == Proposed then Some(ConfigPropose)
                      else if r.state == Applying then Some(TxApply)
                      else if r.state == Rejected && r.result.Some? && r.result.value.StepResult? && r.result.value.state == Rejected
                        then Some(TxApply)
                      else None;
      && (MergeEntry(r).Some? <==> r.idemKey.Some? && r.result.Some? && op.Some?)
      && (MergeEntry(r).Some? ==>
            MergeEntry(r).value == IndexEntry(IdemKey(r.identity.agentId, op.value, r.idemKey.value), r.txId,
                                              if r.fingerprint.Some? then r.fingerprint.value else r.txId, r.result.value))
  {
  }

  /** A record carries a key when it was written by the key's agent and operation under the key's text. */
  lemma CarriesExactly(r: WalRecord, key: IdemKey)
    ensures Carries(r, key) <==>
            && r.idemKey == Some(key.key) && r.identity.agentId == key.agentId
            && (if key.op == ConfigPropose then r.state == Proposed else r.state == Applying || r.state == Rejected)
  {
  }
}
