/**
 Where storage errors and crashes take the engine away from what its callers were told: refusals
 outside the transition table, lost events, misreported writes and leftover index entries, each
 with the exact condition under which it happens.
 */
module EngineFailures {
  import opened Wrappers
  import opened TxStates
  import opened Wal
  import opened Events
  import opened Idempotency
  import opened Recovery
  import opened EngineModel
  import opened EngineTraces
  import opened EngineRuns
  import opened EngineIdempotency
  import opened EngineFaultFree

  // ----- Where the table is not asked -----

  /**
   A moved-base refusal is recorded without asking the transition table: after it the engine can
   be reopened exactly when the transaction was still in a state that may be rejected.
   */
  lemma RefusalReopensExactly(hash: HashFunction, e: Engine, call: Call, env: Env, newLogId: string)
    requires Exact(hash, e) && env.faults == NO_FAULTS && call.ApplyTx?
    requires WorkFor(e, call, env).Committing? && WorkFor(e, call, env).flow.Refusing?
    ensures Named(hash, Perform(hash, e, call, env).engine.disk.index)
    ensures var reopened := Opened(hash, Perform(hash, e, call, env).engine.disk, newLogId).mem;
      !reopened.safeMode <==> call.txId in e.mem.txs && RefusableFrom(e.mem.txs[call.txId].state)
  {
    hide Perform, WorkFor, Commit, NextOk, CaughtUp, Opened, SemanticsOk, OneForOne, IndexComplete, AllKeyed, Recovered, TableOf, Sound;
    CallDoesItsWork(hash, e, call, env, env.faults);
    WorkIsLawful(hash, e, call, env);
    var Committing(flow, r, entry) := WorkFor(e, call, env);
    PerformKeepsNames(hash, e, call, env);
    ExactIsSound(hash, e);
    SoundIsReady(e);
    CompleteCommitExtends(hash, flow, e, r, entry);
    OneForOneCatchesUp(e.disk.wal.records, e.disk.events.lines, r.txId);
    ReopensExactly(hash, e, r, entry, Commit(hash, flow, e, r, entry, NO_FAULTS).engine, newLogId);
  }

  // ----- A record without its event -----

  lemma MatchesWithoutEvent(records: seq<WalRecord>, r: WalRecord, lines: seq<StoredEvent>)
    requires OneForOne(records, lines) && Numbered(records) && r.seqNo == |records| + 1
    ensures EventsMatch(records + [r], lines) && !CaughtUp(records + [r], lines, r.txId)
  {
    hide RecordsOf, EventStates, ChainOf, States;
    var longer := records + [r];
    OneForOneMatches(records, lines);
    forall tx ensures EventStates(lines, tx) <= States(ChainOf(longer, tx)) {
      OneForOneCatchesUp(records, lines, tx);
      ChainOfNumbered(longer, tx);
      ChainAfter(records, r, tx);
      StatesAfter(RecordsOf(records, tx), r);
    }
    OneForOneCatchesUp(records, lines, r.txId);
    ChainAfter(records, r, r.txId);
  }

  /** A record whose event was lost is accepted on reopening, but its transaction stays behind. */
  lemma LostEventReopens(hash: HashFunction, e: Engine, r: WalRecord, d: Disk, newLogId: string)
    requires Exact(hash, e) && r.seqNo == |e.disk.wal.records| + 1 && r.approvalRef.None? && NextOk(e.disk.wal.records, r)
    requires d.wal == WalDisk(e.disk.wal.records + [r], {}, Some(r.seqNo)) && d.events == e.disk.events
    requires Named(hash, d.index)
    ensures var o := Opened(hash, d, newLogId);
      && Sound(o) && o.disk == d && o.mem.eventMeta == e.mem.eventMeta
      && o.mem.txs == TableOf(d.wal.records)
      && !CaughtUp(d.wal.records, d.events.lines, r.txId)
  {
    hide SemanticsOk, EventsMatch, OneForOne, IndexComplete, AllKeyed, TableOf, Merged, Loaded, NextOk, CaughtUp, Recovered;
    var records := e.disk.wal.records;
    ExactIsSound(hash, e);
    SoundIsReady(e);
    assert e.disk.wal.temps - {r.seqNo} == {};
    ExtendedRecovers(e, r, d.wal);
    SemanticsExtended(records, r);
    MatchesWithoutEvent(records, r, d.events.lines);
    IntactExactly(d.events, e.mem.eventMeta.nextSeq);
  }

  /**
   After a lost event and a restart no event is ever added, so the transaction can go no further:
   any later transition of it, complete or not legal, leaves a disk that opens in safe mode.
   */
  lemma LostEventBlocks(
    hash: HashFunction, e: Engine, r: WalRecord, d: Disk, flow: Flow, r': WalRecord, entry: Option<IndexEntry>, newLogId: string)
    requires Exact(hash, e) && r.seqNo == |e.disk.wal.records| + 1 && r.approvalRef.None? && NextOk(e.disk.wal.records, r)
    requires d.wal == WalDisk(e.disk.wal.records + [r], {}, Some(r.seqNo)) && d.events == e.disk.events
    requires Named(hash, d.index) && (!flow.Stepping? ==> entry.Some?)
    requires r'.txId == r.txId && r'.txId != "" && r'.seqNo == r.seqNo + 1 && r'.approvalRef.None?
    ensures var o := Commit(hash, flow, Opened(hash, d, newLogId), r', entry, NO_FAULTS);
      && o.reply.Ok? && Named(hash, o.engine.disk.index)
      && Opened(hash, o.engine.disk, newLogId).mem.safeMode
  {
    hide Commit, Opened, Sound, Exact, NextOk, CaughtUp, Extended, TableOf;
    LostEventReopens(hash, e, r, d, newLogId);
    var e1 := Opened(hash, d, newLogId);
    SoundIsReady(e1);
    SoundFacts(e1);
    CompleteCommitExtends(hash, flow, e1, r', entry);
    CompleteCommit(hash, flow, e1, r', entry);
    CommitKeepsNames(hash, flow, e1, r', entry, NO_FAULTS);
    ReopensExactly(hash, e1, r', entry, Commit(hash, flow, e1, r', entry, NO_FAULTS).engine, newLogId);
  }

  lemma SoundFacts(e: Engine)
    requires Sound(e)
    ensures e.mem.nextSeq == |e.disk.wal.records| && e.disk.events.tail.Clean? && !e.mem.safeMode
  {
  }

  // ----- An append that fails after its rename -----

  lemma FailedAppend(hash: HashFunction, flow: Flow, e: Engine, r: WalRecord, entry: Option<IndexEntry>, f: Faults)
    requires !flow.Stepping? ==> entry.Some?
    requires Ready(e) && r.seqNo == e.mem.nextSeq + 1 && f.walIo.FailedAfter? && e.disk.wal.temps == {}
    ensures var o := Commit(hash, flow, e, r, entry, f);
      && o.reply == Err(Storage)
      && o.engine == Engine(e.disk.(wal := o.engine.disk.wal), e.mem.(nextSeq := r.seqNo))
      && o.engine.disk.wal == WalDisk(if f.walIo.done < 2 then e.disk.wal.records else e.disk.wal.records + [r],
                                      if f.walIo.done == 1 then {r.seqNo} else {},
                                      if f.walIo.done < 4 then e.disk.wal.checkpoint else Some(r.seqNo))
  {
    hide IndexThenEvent, EventThenIndex;
    UnrollAppend(e.disk.wal, r, f.walIo);
  }

  /** Committing a legal record changes the table. */
  lemma LegalRecordShows(hash: HashFunction, e: Engine, r: WalRecord)
    requires Exact(hash, e) && NextOk(e.disk.wal.records, r)
    ensures r.txId in e.mem.txs ==> e.mem.txs[r.txId] != SnapOf(r)
  {
    hide DiskExact, IndexComplete, RecordsOf;
    TableHoldsLast(e.disk.wal.records, r.txId);
    var chain := RecordsOf(e.disk.wal.records, r.txId);
    if chain != [] {
      TransitionsAdvance(chain[|chain| - 1].state, r.state);
    }
  }

  /**
   An append that reports an error, followed by a restart and nothing else: the engine opens with
   the old table if no step took effect, with the failed transition if every step did, and in safe
   mode otherwise.
   */
  lemma FailedAppendReopensExactly(
    hash: HashFunction, e: Engine, flow: Flow, r: WalRecord, entry: Option<IndexEntry>, f: Faults, newLogId: string)
    requires Exact(hash, e) && (!flow.Stepping? ==> entry.Some?) && f.walIo.FailedAfter?
    requires r.seqNo == |e.disk.wal.records| + 1 && r.approvalRef.None? && NextOk(e.disk.wal.records, r)
    ensures var failed := Commit(hash, flow, e, r, entry, f);
      && failed.reply == Err(Storage) && failed.engine.mem.txs == e.mem.txs && !failed.engine.mem.safeMode
      && Named(hash, failed.engine.disk.index)
      && var reopened := Opened(hash, failed.engine.disk, newLogId).mem;
      && (!reopened.safeMode <==> f.walIo.done == 0 || f.walIo.done >= 4)
      && (f.walIo.done == 0 ==> reopened.txs == e.mem.txs)
      && (f.walIo.done >= 4 ==> reopened.txs == e.mem.txs[r.txId := SnapOf(r)])
  {
    hide Commit, Opened, Sound, SemanticsOk, OneForOne, IndexComplete, AllKeyed, NextOk, CaughtUp, TableOf, SnapOf, Recovered;
    var records := e.disk.wal.records;
    ExactIsSound(hash, e);
    SoundIsReady(e);
    FailedAppend(hash, flow, e, r, entry, f);
    var d := Commit(hash, flow, e, r, entry, f).engine.disk;
    RecoveredExactly(e.disk.wal);
    RecoveredExactly(d.wal);
    OpenedTable(hash, d, newLogId, 0);
    OpenedNeedsRecovery(hash, d, newLogId);
    if f.walIo.done == 0 {
      assert d == e.disk;
      OpenKeepsExact(hash, d, newLogId);
    } else if f.walIo.done >= 4 {
      assert d.wal == WalDisk(records + [r], {}, Some(r.seqNo));
      LostEventReopens(hash, e, r, d, newLogId);
      SoundFacts(Opened(hash, d, newLogId));
      TableAfterAppend(records, r);
    }
  }

  lemma OpenedNeedsRecovery(hash: HashFunction, d: Disk, newLogId: string)
    requires Named(hash, d.index)
    ensures Recovered(d.wal).None? ==> Opened(hash, d, newLogId).mem.safeMode
  {
    hide SemanticsOk, EventsMatch, TableOf, Merged, Loaded, Recovered, Intact;
  }

  /**
   The same, followed by one more complete transition that live memory allows: the engine opens
   with the failed transition in its table if the record had been renamed into place and the next
   transition is of another transaction; it opens in safe mode if not.
   */
  lemma SwallowedAppendExactly(
    hash: HashFunction, e: Engine, flow: Flow, r: WalRecord, entry: Option<IndexEntry>, f: Faults,
    flow': Flow, r': WalRecord, entry': Option<IndexEntry>, newLogId: string)
    requires Exact(hash, e) && (!flow.Stepping? ==> entry.Some?) && (!flow'.Stepping? ==> entry'.Some?)
    requires f.walIo.FailedAfter? && r.seqNo == |e.disk.wal.records| + 1 && r.approvalRef.None? && NextOk(e.disk.wal.records, r)
    requires r'.seqNo == r.seqNo + 1 && r'.txId != "" && r'.approvalRef.None? && NextOk(e.disk.wal.records, r')
    ensures var failed := Commit(hash, flow, e, r, entry, f);
      && failed.reply == Err(Storage)
      && var later := Commit(hash, flow', failed.engine, r', entry', NO_FAULTS);
      && later.reply.Ok? && later.engine.mem.txs == e.mem.txs[r'.txId := SnapOf(r')] && !later.engine.mem.safeMode
      && Named(hash, later.engine.disk.index)
      && var reopened := Opened(hash, later.engine.disk, newLogId).mem;
      && (!reopened.safeMode <==> f.walIo.done >= 2 && r'.txId != r.txId)
      && (!reopened.safeMode ==> reopened.txs == e.mem.txs[r.txId := SnapOf(r)][r'.txId := SnapOf(r')])
  {
    hide Commit, Opened, Sound, SemanticsOk, OneForOne, IndexComplete, AllKeyed, NextOk, CaughtUp, Recovered, TableOf, SnapOf, EventFor;
    var records := e.disk.wal.records;
    ExactIsSound(hash, e);
    SoundIsReady(e);
    FailedAppend(hash, flow, e, r, entry, f);
    var e1 := Commit(hash, flow, e, r, entry, f).engine;
    StillReady(e, r, e1);
    CompleteCommitExtends(hash, flow', e1, r', entry');
    CompleteCommit(hash, flow', e1, r', entry');
    CommitOkTable(hash, flow', e1, r', entry', NO_FAULTS);
    CommitKeepsNames(hash, flow', e1, r', entry', NO_FAULTS);
    var e2 := Commit(hash, flow', e1, r', entry', NO_FAULTS).engine;
    OpenedTable(hash, e2.disk, newLogId, r.seqNo);
    if f.walIo.done < 2 {
      assert Hole(e2.disk.wal, r.seqNo) by {
        assert e2.disk.wal.records[|records|] == r';
      }
    } else {
      var d := e1.disk.(wal := WalDisk(records + [r], {}, Some(r.seqNo)));
      LostEventReopens(hash, e, r, d, newLogId);
      var s := Opened(hash, d, newLogId);
      var s' := Engine(e2.disk, Memory(s.mem.txs[r'.txId := SnapOf(r')], r'.seqNo, false,
                                       s.mem.eventMeta.(nextSeq := s.mem.eventMeta.nextSeq + 1),
                                       if entry'.None? then s.mem.entries else s.mem.entries[entry'.value.key := entry'.value]));
      if r'.txId != r.txId {
        OtherChain(records, r, e.disk.events.lines, r');
      }
      ReopensExactly(hash, s, r', entry', s', newLogId);
      TableAfterAppend(records, r);
      TableAfterAppend(records + [r], r');
    }
  }

  lemma StillReady(e: Engine, r: WalRecord, e1: Engine)
    requires Ready(e) && r.seqNo == e.mem.nextSeq + 1
    requires e1.disk.wal.records == e.disk.wal.records || e1.disk.wal.records == e.disk.wal.records + [r]
    requires e1.mem == e.mem.(nextSeq := r.seqNo)
    ensures Ready(e1)
  {
  }

  /** One transaction's record does not touch what another's next record needs. */
  lemma OtherChain(records: seq<WalRecord>, r: WalRecord, lines: seq<StoredEvent>, r': WalRecord)
    requires OneForOne(records, lines) && r'.txId != r.txId && NextOk(records, r')
    ensures NextOk(records + [r], r') && CaughtUp(records + [r], lines, r'.txId)
  {
    hide RecordsOf, EventStates, States;
    ChainAfter(records, r, r'.txId);
    OneForOneCatchesUp(records, lines, r'.txId);
  }

  // ----- An index entry that outlives its rolled-back record -----

  /** Everything succeeds up to the event, which fails after any number of its steps; the record is taken back. */
  predicate EventRefused(f: Faults) {
    f.walIo.Completed? && f.indexIo.Completed? && f.eventIo.FailedAfter? && f.revertIo.Completed?
  }

  lemma RolledBackCommit(hash: HashFunction, e: Engine, r: WalRecord, entry: IndexEntry, f: Faults)
    requires Ready(e) && r.seqNo == e.mem.nextSeq + 1 && |e.disk.wal.records| == e.mem.nextSeq && e.disk.wal.temps == {}
    requires EventRefused(f)
    ensures var o := Commit(hash, Proposing, e, r, Some(entry), f);
      && o.reply == Err(SafeMode) && o.engine.mem.safeMode
      && o.engine.disk.wal == WalDisk(e.disk.wal.records, {}, if r.seqNo == 1 then None else Some(r.seqNo - 1))
      && o.engine.disk.events == AppendStateEvent(e, r.txId, r.state, f.eventIo).engine.disk.events
      && var files := e.disk.index[hash(entry.key) := entry];
      o.engine.disk.index == if StepsDone(f.removeIo, 1) == 0 then files else files - {hash(entry.key)}
  {
    hide WalRun, EventRun, AppendSteps, RevertSteps, EventSteps, SnapOf, InsertedFiles, RemovedFiles;
    AppendThenRevert(e.disk.wal, r);
    InsertThenRemove(hash, e.disk.index, entry, f.removeIo);
  }

  lemma AppendThenRevert(wal: WalDisk, r: WalRecord)
    requires wal.temps == {} && 1 <= r.seqNo && forall i :: 0 <= i < |wal.records| ==> wal.records[i].seqNo < r.seqNo
    ensures WalRun(WalRun(wal, AppendSteps(r), Completed), RevertSteps(r.seqNo), Completed)
            == WalDisk(wal.records, {}, if r.seqNo == 1 then None else Some(r.seqNo - 1))
  {
    hide WalRun, AppendSteps, RevertSteps;
    UnrollAppend(wal, r, Completed);
    var appended := WalRun(wal, AppendSteps(r), Completed);
    WithoutNewer(wal.records, r.seqNo);
    assert (wal.records + [r])[..|wal.records|] == wal.records;
    UnrollRevert(appended, r.seqNo, Completed);
    RevertLength(r.seqNo);
  }

  lemma InsertThenRemove(hash: HashFunction, files: IndexDisk, entry: IndexEntry, io: Io)
    ensures InsertedFiles(hash, files, entry, Completed) == files[hash(entry.key) := entry]
    ensures var inserted := InsertedFiles(hash, files, entry, Completed);
      RemovedFiles(hash, inserted, entry.key, io) == if StepsDone(io, 1) == 0 then inserted else inserted - {hash(entry.key)}
  {
  }

  lemma RevertLength(seqNo: nat)
    ensures RevertSteps(seqNo) != [] && StepsDone(Completed, |RevertSteps(seqNo)|) == |RevertSteps(seqNo)|
  {
  }

  /** An event that failed after any step of its append can no longer pass: torn, uncounted, or without a record. */
  lemma FailedEventRefused(hash: HashFunction, e: Engine, r: WalRecord, io: Io, d: Disk, newLogId: string)
    requires Exact(hash, e) && io.FailedAfter? && Named(hash, d.index)
    requires r.txId != "" && RecordsOf(e.disk.wal.records, r.txId) == []
    requires d.wal.records == e.disk.wal.records && d.events == AppendStateEvent(e, r.txId, r.state, io).engine.disk.events
    ensures io.done == 0 ==> d.events == e.disk.events
    ensures io.done > 0 ==> Opened(hash, d, newLogId).mem.safeMode
  {
    hide SemanticsOk, EventRun, EventSteps, IndexComplete, AllKeyed, TableOf, Merged, Loaded, Recovered, OneForOne, RecordsOf, States;
    var lines, next := e.disk.events.lines, e.mem.eventMeta.nextSeq;
    var meta := e.mem.eventMeta.(nextSeq := next + 1);
    var stored := StoredEvent(next, TX_STATE_KIND, TxStatePayload(r.txId, r.state));
    UnrollEvent(e.disk.events, stored, meta, io);
    OneForOneLength(e.disk.wal.records, lines);
    if io.done > 0 {
      IntactExactly(d.events, d.events.meta.value.nextSeq);
      if io.done >= 5 {
        RecoveredExactly(e.disk.wal);
        RecoveredExactly(d.wal);
        OneForOneCatchesUp(e.disk.wal.records, lines, r.txId);
        ChainOfNumbered(e.disk.wal.records, r.txId);
        EventStatesAfter(lines, stored, r.txId);
        assert States([]) == [];
        RecoveredIs(d.wal);
        assert EventStates(d.events.lines, r.txId) != [];
      }
    }
  }

  lemma RestoredDiskReopens(hash: HashFunction, e: Engine, d: Disk, newLogId: string)
    requires Exact(hash, e) && Named(hash, d.index) && d.events == e.disk.events
    requires d.wal == WalDisk(e.disk.wal.records, {}, if e.disk.wal.records == [] then None else Some(|e.disk.wal.records|))
    ensures var o := Opened(hash, d, newLogId);
      && !o.mem.safeMode && o.disk.wal == d.wal
      && o.mem.entries == Merged(Loaded(hash, d.index), d.wal.records)
  {
    hide SemanticsOk, EventsMatch, OneForOne, IndexComplete, AllKeyed, TableOf, Merged, Loaded, Recovered;
    RecoveredExactly(e.disk.wal);
    RecoveredExactly(d.wal);
    RecoveredIs(d.wal);
    OneForOneMatches(e.disk.wal.records, d.events.lines);
    OneForOneLength(e.disk.wal.records, d.events.lines);
    IntactExactly(d.events, e.mem.eventMeta.nextSeq);
  }

  /**
   A proposal whose event fails, after any of its steps, is taken back and reported as failed. If
   the event wrote anything, the next opening is safe mode. If it wrote nothing and the index entry
   is then not removed (a crash or an error at that last step), the next opening loads the entry,
   and the retried call is told of a transaction that no record holds; otherwise the retry does
   its work.
   */
  lemma LeftoverEntryExactly(hash: HashFunction, e: Engine, call: Call, env: Env, newLogId: string, retryEnv: Env)
    requires Exact(hash, e) && call.Propose? && EventRefused(env.faults)
    requires env.freshTxId != "" && RecordsOf(e.disk.wal.records, env.freshTxId) == []
    requires WorkFor(e, call, env).Committing? && retryEnv.staged.Ok?
    ensures env.staged.Ok?
    ensures var o := Perform(hash, e, call, env);
      && o.reply == Err(SafeMode) && o.engine.disk.wal.records == e.disk.wal.records
      && Named(hash, o.engine.disk.index)
      && var reopened := Opened(hash, o.engine.disk, newLogId);
      && (!reopened.mem.safeMode <==> env.faults.eventIo.done == 0)
      && (!reopened.mem.safeMode ==> LeftoverAnswers(hash, call, env, reopened, retryEnv))
  {
    hide Commit, Perform, Opened, SemanticsOk, OneForOne, AllKeyed, Recovered, TableOf, Merged, Loaded, RecordFor, ProposedResult,
         Carries, LeftoverAnswers, AppendStateEvent, NextOk, RecordsOf;
    CallDoesItsWork(hash, e, call, env, env.faults);
    WorkIsLawful(hash, e, call, env);
    PerformKeepsNames(hash, e, call, env);
    ExactIsSound(hash, e);
    SoundIsReady(e);
    ProposalWork(e, call, env);
    var Committing(flow, r, entry) := WorkFor(e, call, env);
    RolledBackCommit(hash, e, r, entry.value, env.faults);
    CommittingReply(hash, e, call, env);
    var d := Perform(hash, e, call, env).engine.disk;
    FailedEventRefused(hash, e, r, env.faults.eventIo, d, newLogId);
    if env.faults.eventIo.done == 0 {
      RestoredDiskReopens(hash, e, d, newLogId);
      LeftoverLoads(hash, e, entry.value, d, env.faults.removeIo);
      LeftoverDecides(hash, call, env, Opened(hash, d, newLogId), entry.value, retryEnv);
    }
  }

  /** The leftover entry, and only it, answers the retry; without it the retry does its work. */
  predicate LeftoverAnswers(hash: HashFunction, call: Call, env: Env, reopened: Engine, retryEnv: Env)
    requires call.Propose? && env.staged.Ok?
  {
    && (StepsDone(env.faults.removeIo, 1) == 0 <==> KeyOf(call) in reopened.mem.entries)
    && Uncarried(reopened.disk.wal.records, KeyOf(call))
    && (if StepsDone(env.faults.removeIo, 1) == 0 then
          && Perform(hash, reopened, call, retryEnv).reply == Ok(ReplyOf(ProposedResult(env)))
          && Perform(hash, reopened, call, retryEnv).engine == reopened
        else WorkFor(reopened, call, retryEnv).Committing?)
  }

  lemma LeftoverDecides(hash: HashFunction, call: Call, env: Env, reopened: Engine, entry: IndexEntry, retryEnv: Env)
    requires call.Propose? && env.staged.Ok? && retryEnv.staged.Ok? && !reopened.mem.safeMode
    requires entry == IndexEntry(KeyOf(call), env.freshTxId, call.fingerprint, ProposedResult(env)) && ProposedResult(env).ProposeResult?
    requires Uncarried(reopened.disk.wal.records, entry.key)
    requires entry.key in reopened.mem.entries <==> StepsDone(env.faults.removeIo, 1) == 0
    requires StepsDone(env.faults.removeIo, 1) == 0 ==> reopened.mem.entries[entry.key] == entry
    ensures LeftoverAnswers(hash, call, env, reopened, retryEnv)
  {
    hide Perform, WorkFor, Carries;
    if StepsDone(env.faults.removeIo, 1) == 0 {
      KnownKeyAnswers(hash, reopened, call, retryEnv, entry);
    } else {
      UncarriedIsMissing(reopened.disk.wal.records, entry.key, call.fingerprint);
      UnknownKeyWorks(reopened, call, retryEnv);
    }
  }

  lemma ProposalWork(e: Engine, call: Call, env: Env)
    requires call.Propose? && WorkFor(e, call, env).Committing?
    ensures var w := WorkFor(e, call, env);
      && w.flow.Proposing? && env.staged.Ok? && KeyOf(call) !in e.mem.entries && ProposedResult(env).ProposeResult?
      && w.entry == Some(IndexEntry(KeyOf(call), env.freshTxId, call.fingerprint, ProposedResult(env)))
      && w.record.txId == env.freshTxId
  {
    hide LookupIn;
  }

  lemma LeftoverLoads(hash: HashFunction, e: Engine, entry: IndexEntry, d: Disk, io: Io)
    requires Exact(hash, e) && entry.key !in e.mem.entries && Named(hash, d.index)
    requires var files := e.disk.index[hash(entry.key) := entry];
      d.index == if StepsDone(io, 1) == 0 then files else files - {hash(entry.key)}
    ensures Uncarried(e.disk.wal.records, entry.key)
    ensures var entries := Merged(Loaded(hash, d.index), e.disk.wal.records);
      && (entry.key in entries <==> StepsDone(io, 1) == 0)
      && (StepsDone(io, 1) == 0 ==> entries[entry.key] == entry)
  {
    hide SemanticsOk, OneForOne, Recovered, TableOf, Merged, MergeEntry;
    var records, files := e.disk.wal.records, Loaded(hash, d.index);
    MergedExactly(files, records);
    assert Uncarried(records, entry.key);
    if StepsDone(io, 1) == 0 {
      assert d.index[hash(entry.key)] == entry;
    } else if entry.key in Merged(files, records) {
      assert entry.key !in files;
      var i :| 0 <= i < |records| && MergeEntry(records[i]) == Some(Merged(files, records)[entry.key])
               && Merged(files, records)[entry.key].key == entry.key;
      MergeEntrySupports(records[i]);
    }
  }

  lemma KnownKeyAnswers(hash: HashFunction, e: Engine, call: Call, env: Env, entry: IndexEntry)
    requires call.Propose? && !e.mem.safeMode && KeyOf(call) in e.mem.entries && e.mem.entries[KeyOf(call)] == entry
    requires entry.fingerprint == call.fingerprint && entry.result.ProposeResult?
    ensures var o := Perform(hash, e, call, env);
      o.reply == Ok(ReplyOf(entry.result)) && o.engine == e
  {
    hide LookupIn, Commit;
  }

  lemma UnknownKeyWorks(e: Engine, call: Call, env: Env)
    requires call.Propose? && !e.mem.safeMode && KeyOf(call) !in e.mem.entries && env.staged.Ok?
    requires LookupIn(e.disk.wal.records, KeyOf(call), call.fingerprint).Missing?
    ensures WorkFor(e, call, env).Committing?
  {
  }

  // ----- A revert that fails -----

  lemma FailedRevert(hash: HashFunction, e: Engine, r: WalRecord, entry: Option<IndexEntry>, f: Faults)
    requires Ready(e) && r.seqNo == e.mem.nextSeq + 1 && r.seqNo > 1 && e.disk.wal.temps == {}
    requires RevertFails(Stepping, entry, f)
    ensures var o := Commit(hash, Stepping, e, r, entry, f);
      && o.reply == Err(Storage) && !o.engine.mem.safeMode
      && o.engine.mem.txs == e.mem.txs[r.txId := SnapOf(r)]
      && o.engine.disk.events == e.disk.events
      && o.engine.disk.wal == WalDisk(if f.revertIo.done == 0 then e.disk.wal.records + [r] else e.disk.wal.records,
                                      {}, Some(if f.revertIo.done >= 3 then r.seqNo - 1 else r.seqNo))
  {
    hide WalRun, AppendSteps, SnapOf, InsertedFiles;
    UnrollAppend(e.disk.wal, r, Completed);
    var appended := WalRun(e.disk.wal, AppendSteps(r), Completed);
    WithoutNewer(e.disk.wal.records, r.seqNo);
    assert (e.disk.wal.records + [r])[..|e.disk.wal.records|] == e.disk.wal.records;
    UnrollRevert(appended, r.seqNo, f.revertIo);
  }

  /**
   After a step whose index entry and revert both failed, memory shows the step. The engine opens
   with that table if the revert did nothing, with the old one (which memory no longer shows) if
   every step of the revert took effect, and in safe mode otherwise.
   */
  lemma FailedRevertReopensExactly(
    hash: HashFunction, e: Engine, r: WalRecord, entry: Option<IndexEntry>, f: Faults, newLogId: string)
    requires Exact(hash, e) && RevertFails(Stepping, entry, f)
    requires r.seqNo == |e.disk.wal.records| + 1 && r.approvalRef.None? && NextOk(e.disk.wal.records, r)
    requires RecordsOf(e.disk.wal.records, r.txId) != []
    ensures var failed := Commit(hash, Stepping, e, r, entry, f);
      && failed.reply == Err(Storage) && !failed.engine.mem.safeMode
      && failed.engine.mem.txs == e.mem.txs[r.txId := SnapOf(r)] && failed.engine.mem.txs != e.mem.txs
      && Named(hash, failed.engine.disk.index)
      && var reopened := Opened(hash, failed.engine.disk, newLogId).mem;
      && (!reopened.safeMode <==> f.revertIo.done == 0 || f.revertIo.done >= 3)
      && (f.revertIo.done == 0 ==> reopened.txs == failed.engine.mem.txs)
      && (f.revertIo.done >= 3 ==> reopened.txs == e.mem.txs)
  {
    hide Commit, Opened, Sound, SemanticsOk, OneForOne, IndexComplete, AllKeyed, NextOk, CaughtUp, TableOf, SnapOf, Recovered;
    var records := e.disk.wal.records;
    ExactIsSound(hash, e);
    SoundIsReady(e);
    LegalRecordShows(hash, e, r);
    FailedRevert(hash, e, r, entry, f);
    CommitKeepsNames(hash, Stepping, e, r, entry, f);
    var d := Commit(hash, Stepping, e, r, entry, f).engine.disk;
    RecoveredExactly(d.wal);
    OpenedTable(hash, d, newLogId, 0);
    OpenedNeedsRecovery(hash, d, newLogId);
    TableAfterAppend(records, r);
    if f.revertIo.done == 0 {
      LostEventReopens(hash, e, r, d, newLogId);
      SoundFacts(Opened(hash, d, newLogId));
    } else if f.revertIo.done >= 3 {
      RestoredDiskReopens(hash, e, d, newLogId);
    }
  }

  // ----- Exactly when memory falls behind the disk -----

  /** Any number of calls without storage faults. */
  predicate Untroubled(actions: seq<Action>) {
    forall i :: 0 <= i < |actions| ==> actions[i].Serve? && actions[i].env.faults == NO_FAULTS
  }

  /** After these calls a restart opens outside safe mode with a table other than the one in memory. */
  ghost predicate Diverges(hash: HashFunction, e: Engine, actions: seq<Action>, newLogId: string)
    requires Named(hash, e.disk.index)
  {
    var sys := Run(hash, Up(e), actions);
    sys.Up? && !sys.engine.mem.safeMode &&
    var reopened := Opened(hash, sys.engine.disk, newLogId).mem;
    !reopened.safeMode && reopened.txs != sys.engine.mem.txs
  }

  /** A restart opens outside safe mode with a table other than the one in memory. */
  ghost predicate Differs(hash: HashFunction, e: Engine, newLogId: string)
    requires Named(hash, e.disk.index)
  {
    var reopened := Opened(hash, e.disk, newLogId).mem;
    !e.mem.safeMode && !reopened.safeMode && reopened.txs != e.mem.txs
  }

  lemma DivergesAtOnce(hash: HashFunction, e: Engine, newLogId: string)
    requires Named(hash, e.disk.index)
    ensures Differs(hash, e, newLogId) ==> Diverges(hash, e, [], newLogId)
  {
    hide Opened;
  }

  lemma DivergesAfterOne(hash: HashFunction, e: Engine, call: Call, env: Env, newLogId: string)
    requires Named(hash, e.disk.index)
    ensures Named(hash, Perform(hash, e, call, env).engine.disk.index)
    ensures Differs(hash, Perform(hash, e, call, env).engine, newLogId) ==> Diverges(hash, e, [Serve(call, env)], newLogId)
  {
    hide Opened, Perform;
    PerformKeepsNames(hash, e, call, env);
    var actions := [Serve(call, env)];
    assert actions[..0] == [];
    assert Run(hash, Up(e), actions[..0]) == Up(e);
  }

  // Names that are not taken yet.

  lemma {:induction false} LongerThanAll(s: set<string>) returns (n: nat)
    ensures forall k :: k in s ==> |k| < n
    decreases s
  {
    if s == {} {
      n := 1;
    } else {
      var k :| k in s;
      n := LongerThanAll(s - {k});
      n := if |k| < n then n else |k| + 1;
    }
  }

  lemma NewName(s: set<string>) returns (name: string)
    ensures name !in s && name != ""
  {
    var n := LongerThanAll(s);
    name := seq(n + 1, i => 'a');
  }

  /** There is always a proposal that is new in every respect and succeeds. */
  lemma NewProposal(e: Engine) returns (call: Call, env: Env)
    requires !e.mem.safeMode
    ensures call.Propose? && env.faults == NO_FAULTS && env.freshTxId != ""
    ensures forall i :: 0 <= i < |e.disk.wal.records| ==> e.disk.wal.records[i].txId != env.freshTxId
    ensures var w := WorkFor(e, call, env);
      && w.Committing? && w.flow.Proposing? && w.entry.Some? && w.record.txId == env.freshTxId && w.record.seqNo == e.mem.nextSeq + 1
      && w.record.state.Proposed? && w.record.version == SUPPORTED_RECORD_VERSION && w.record.approvalRef.None?
  {
    var records := e.disk.wal.records;
    var tx := NewName(set i | 0 <= i < |records| :: records[i].txId);
    var key := NewName((set k | k in e.mem.entries :: k.key) + (set i | 0 <= i < |records| :: records[i].idemKey.GetOr("")));
    assert forall k :: k in e.mem.entries ==> k.key in (set l | l in e.mem.entries :: l.key);
    call := Propose("", "", key, "");
    env := Env(tx, BaseRevision(None, "", ""), Ok(Staged("", TestPlan("", []), [], None)), true, NO_FAULTS);
    forall i | 0 <= i < |records| ensures !Carries(records[i], KeyOf(call)) && records[i].txId != tx {
      assert records[i].idemKey.GetOr("") in (set j | 0 <= j < |records| :: records[j].idemKey.GetOr(""));
      assert records[i].txId in (set j | 0 <= j < |records| :: records[j].txId);
    }
    UncarriedIsMissing(records, KeyOf(call), call.fingerprint);
  }

  // No divergence where nothing misled.

  lemma ExactIsInv(hash: HashFunction, e: Engine)
    requires Exact(hash, e)
    ensures EngineInv(e) && InOrder(e) && Named(hash, e.disk.index)
  {
    hide SemanticsOk, EventsMatch, TableOf, OneForOne, IndexComplete, AllKeyed, Broken;
    ExactIsSound(hash, e);
    SoundIsReady(e);
  }

  lemma {:induction false} UntroubledKeeps(hash: HashFunction, e: Engine, actions: seq<Action>)
    requires Named(hash, e.disk.index) && EngineInv(e) && Untroubled(actions)
    ensures SystemInv(Run(hash, Up(e), actions))
  {
    hide Step, EngineInv;
    if actions == [] {
      EngineInvOrdered(e);
    } else {
      UntroubledKeeps(hash, e, actions[..|actions| - 1]);
      StepKeeps(hash, Run(hash, Up(e), actions[..|actions| - 1]), actions[|actions| - 1]);
    }
  }

  lemma EngineInvOrdered(e: Engine)
    requires EngineInv(e)
    ensures Ordered(e.disk.wal.records)
  {
  }

  lemma InStepNeverDiverges(hash: HashFunction, e: Engine, actions: seq<Action>, newLogId: string)
    requires Named(hash, e.disk.index) && EngineInv(e) && Untroubled(actions)
    ensures !Diverges(hash, e, actions, newLogId)
  {
    hide Run, Opened, TableOf;
    UntroubledKeeps(hash, e, actions);
    var sys := Run(hash, Up(e), actions);
    if sys.Up? && !sys.engine.mem.safeMode {
      OpenedTable(hash, sys.engine.disk, newLogId, sys.engine.mem.nextSeq);
    }
  }

  lemma {:induction false} UntroubledGrows(hash: HashFunction, e: Engine, actions: seq<Action>)
    requires Named(hash, e.disk.index) && InOrder(e) && Untroubled(actions)
    ensures var sys := Run(hash, Up(e), actions);
      sys.Up? && InOrder(sys.engine) && e.disk.wal.records <= sys.engine.disk.wal.records
  {
    hide Perform, InOrder;
    if actions != [] {
      var init, last := actions[..|actions| - 1], actions[|actions| - 1];
      UntroubledGrows(hash, e, init);
      CallGrowsInOrder(hash, Run(hash, Up(e), init).engine, last.call, last.env);
    }
  }

  lemma {:induction false} RecordsOfPrefix(records: seq<WalRecord>, n: nat, tx: string)
    requires n <= |records|
    ensures RecordsOf(records[..n], tx) <= RecordsOf(records, tx)
  {
    if n < |records| {
      var init := records[..|records| - 1];
      RecordsOfPrefix(init, n, tx);
      assert init[..n] == records[..n];
    } else {
      assert records[..n] == records;
    }
  }

  /** An illegal record is never accepted, whatever follows it. */
  lemma IllegalNeverAccepted(records: seq<WalRecord>, r: WalRecord, longer: seq<WalRecord>)
    requires Numbered(records) && r.seqNo == |records| + 1 && SemanticsOk(records) && !NextOk(records, r)
    requires records + [r] <= longer && Numbered(longer)
    ensures !SemanticsOk(longer)
  {
    hide NextOk, RecordsOf, ChainOf;
    if SemanticsOk(longer) {
      var n := |records| + 1;
      var shorter := records + [r];
      assert longer[..n] == shorter;
      forall i | 0 <= i < n ensures RecordOk(shorter[i]) {
        assert shorter[i] == longer[i];
      }
      forall tx ensures ChainOk(ChainOf(shorter, tx)) {
        RecordsOfPrefix(longer, n, tx);
        ChainOfNumbered(longer, tx);
        ChainOfNumbered(shorter, tx);
        ChainPrefixOk(RecordsOf(shorter, tx), ChainOf(longer, tx));
      }
      SemanticsExtended(records, r);
    }
  }

  lemma ChainPrefixOk(shorter: seq<WalRecord>, longer: seq<WalRecord>)
    requires shorter <= longer && ChainOk(longer)
    ensures ChainOk(shorter)
  {
    forall i | 0 < i < |shorter| ensures LinkOk(shorter[i - 1], shorter[i]) {
      assert LinkOk(longer[i - 1], longer[i]);
    }
  }

  lemma IllegalNeverOpens(hash: HashFunction, records: seq<WalRecord>, r: WalRecord, d: Disk, newLogId: string)
    requires Named(hash, d.index) && Numbered(records) && r.seqNo == |records| + 1 && SemanticsOk(records) && !NextOk(records, r)
    requires records + [r] <= d.wal.records
    ensures Opened(hash, d, newLogId).mem.safeMode
  {
    hide SemanticsOk, EventsMatch, TableOf, Merged, Loaded, Intact, NextOk;
    RecoveredExactly(d.wal);
    RecoveredIs(d.wal);
    if Recovered(d.wal).Some? {
      IllegalNeverAccepted(records, r, d.wal.records);
    }
  }

  // Divergence where something did.

  lemma MisledDiverges(hash: HashFunction, flow: Flow, e: Engine, r: WalRecord, entry: Option<IndexEntry>, f: Faults)
    returns (actions: seq<Action>)
    requires !flow.Stepping? ==> entry.Some?
    requires Exact(hash, e) && r.seqNo == |e.disk.wal.records| + 1 && r.approvalRef.None? && r.txId != "" && NextOk(e.disk.wal.records, r)
    requires flow.Stepping? ==> RecordsOf(e.disk.wal.records, r.txId) != []
    requires Misled(flow, entry, f) && Named(hash, Commit(hash, flow, e, r, entry, f).engine.disk.index)
    ensures Untroubled(actions) && Diverges(hash, Commit(hash, flow, e, r, entry, f).engine, actions, "")
  {
    hide Commit, Perform, Opened, Diverges, Exact, SnapOf, NextOk, WorkFor, RecordsOf;
    var e1 := Commit(hash, flow, e, r, entry, f).engine;
    LegalRecordShows(hash, e, r);
    if f.walIo.FailedAfter? && f.walIo.done >= 4 {
      FailedAppendReopensExactly(hash, e, flow, r, entry, f, "");
      DivergesAtOnce(hash, e1, "");
      actions := [];
    } else if f.walIo.FailedAfter? {
      actions := SwallowedDiverges(hash, flow, e, r, entry, f);
    } else {
      FailedRevertReopensExactly(hash, e, r, entry, f, "");
      DivergesAtOnce(hash, e1, "");
      actions := [];
    }
  }

  lemma SwallowedDiverges(hash: HashFunction, flow: Flow, e: Engine, r: WalRecord, entry: Option<IndexEntry>, f: Faults)
    returns (actions: seq<Action>)
    requires !flow.Stepping? ==> entry.Some?
    requires Exact(hash, e) && r.seqNo == |e.disk.wal.records| + 1 && r.approvalRef.None? && NextOk(e.disk.wal.records, r)
    requires f.walIo.FailedAfter? && f.walIo.done >= 2 && Named(hash, Commit(hash, flow, e, r, entry, f).engine.disk.index)
    ensures Untroubled(actions) && Diverges(hash, Commit(hash, flow, e, r, entry, f).engine, actions, "")
  {
    hide Commit, Perform, Opened, Diverges, DiskExact, IndexComplete, SnapOf, NextOk, WorkFor, RecordsOf, TableOf;
    var e1 := Commit(hash, flow, e, r, entry, f).engine;
    ExactIsSound(hash, e);
    SoundIsReady(e);
    LegalRecordShows(hash, e, r);
    FailedAppend(hash, flow, e, r, entry, f);
    var call, env := NewProposal(e1);
    var Committing(flow', r', entry') := WorkFor(e1, call, env);
    assert e1.disk.wal.records[|e.disk.wal.records|] == r;
    forall i | 0 <= i < |e.disk.wal.records| ensures e.disk.wal.records[i].txId != r'.txId {
      assert e1.disk.wal.records[i] == e.disk.wal.records[i];
    }
    NoRecordsOf(e.disk.wal.records, r'.txId);
    FirstRecordOk(e.disk.wal.records, r');
    CallDoesItsWork(hash, e1, call, env, NO_FAULTS);
    SwallowedAppendExactly(hash, e, flow, r, entry, f, flow', r', entry', "");
    TablesDiffer(e.mem.txs, SnapOf(r), r.txId, SnapOf(r'), r'.txId);
    DivergesAfterOne(hash, e1, call, env, "");
    actions := [Serve(call, env)];
  }

  lemma TablesDiffer(txs: TxTable, a: TxSnapshot, tx: string, b: TxSnapshot, other: string)
    requires tx != other && (tx in txs ==> txs[tx] != a)
    ensures txs[tx := a][other := b] != txs[other := b]
  {
    assert txs[tx := a][other := b][tx] == a;
  }

  lemma {:induction false} NoRecordsOf(records: seq<WalRecord>, tx: string)
    requires forall i :: 0 <= i < |records| ==> records[i].txId != tx
    ensures RecordsOf(records, tx) == []
  {
    if records != [] {
      NoRecordsOf(records[..|records| - 1], tx);
    }
  }

  /** A call that recorded, or was allowed by the table to record, its transition. */
  predicate LegalWork(e: Engine, call: Call, w: Work) {
    w.Committing? && (w.flow.Refusing? ==> call.ApplyTx? && call.txId in e.mem.txs && RefusableFrom(e.mem.txs[call.txId].state))
  }

  /**
   One call on an exact engine, under any storage faults, that leaves it in service: some sequence
   of untroubled calls and a restart then opens with a table that memory does not show, if and only
   if the call's transition was legal and its append failed after the record's rename, or its revert
   failed after everything was reverted.
   */
  lemma DivergenceExactly(hash: HashFunction, e: Engine, call: Call, env: Env)
    requires Exact(hash, e)
    requires call.Propose? ==> env.freshTxId != "" && RecordsOf(e.disk.wal.records, env.freshTxId) == []
    requires !Perform(hash, e, call, env).engine.mem.safeMode
    ensures Named(hash, Perform(hash, e, call, env).engine.disk.index)
    ensures var w, e' := WorkFor(e, call, env), Perform(hash, e, call, env).engine;
      (exists actions, newLogId :: Untroubled(actions) && Diverges(hash, e', actions, newLogId))
      <==> LegalWork(e, call, w) && Misled(w.flow, w.entry, env.faults)
  {
    hide Perform, WorkFor, Commit, Diverges, Exact, Sound, Misled, NextOk, EngineInv, InOrder, Ready, SnapOf, RecordsOf;
    var w, e' := WorkFor(e, call, env), Perform(hash, e, call, env).engine;
    ExactIsInv(hash, e);
    PerformKeepsNames(hash, e, call, env);
    CallDoesItsWork(hash, e, call, env, env.faults);
    WorkIsLawful(hash, e, call, env);
    if LegalWork(e, call, w) && Misled(w.flow, w.entry, env.faults) {
      StepHasChain(hash, e, call, env);
      ExactCounts(hash, e);
      var actions := MisledDiverges(hash, w.flow, e, w.record, w.entry, env.faults);
    } else {
      forall actions, newLogId | Untroubled(actions) ensures !Diverges(hash, e', actions, newLogId) {
        UnmisledNeverDiverges(hash, e, call, env, actions, newLogId);
      }
    }
  }

  lemma ExactCounts(hash: HashFunction, e: Engine)
    requires Exact(hash, e)
    ensures e.mem.nextSeq == |e.disk.wal.records| && Ready(e) && Numbered(e.disk.wal.records) && SemanticsOk(e.disk.wal.records)
    ensures e.disk.wal.temps == {}
  {
    hide SemanticsOk, EventsMatch, TableOf, OneForOne, IndexComplete, AllKeyed;
    ExactIsSound(hash, e);
    SoundIsReady(e);
  }

  /** A step is of a transaction that has a record. */
  lemma StepHasChain(hash: HashFunction, e: Engine, call: Call, env: Env)
    requires Exact(hash, e)
    ensures var w := WorkFor(e, call, env);
      w.Committing? && w.flow.Stepping? ==> RecordsOf(e.disk.wal.records, w.record.txId) != []
  {
    hide DiskExact, IndexComplete, LookupIn, RecordsOf, TableOf, SnapOf;
    var w := WorkFor(e, call, env);
    if w.Committing? && w.flow.Stepping? {
      TableHoldsLast(e.disk.wal.records, call.txId);
    }
  }

  lemma OnlyAppliesRefuse(e: Engine, call: Call, env: Env)
    ensures var w := WorkFor(e, call, env);
      w.Committing? && w.flow.Refusing? ==> call.ApplyTx?
  {
    hide LookupIn;
  }

  lemma UnmisledNeverDiverges(hash: HashFunction, e: Engine, call: Call, env: Env, actions: seq<Action>, newLogId: string)
    requires Exact(hash, e) && Untroubled(actions)
    requires call.Propose? ==> env.freshTxId != "" && RecordsOf(e.disk.wal.records, env.freshTxId) == []
    requires Named(hash, Perform(hash, e, call, env).engine.disk.index) && !Perform(hash, e, call, env).engine.mem.safeMode
    requires var w := WorkFor(e, call, env); !(LegalWork(e, call, w) && Misled(w.flow, w.entry, env.faults))
    ensures !Diverges(hash, Perform(hash, e, call, env).engine, actions, newLogId)
  {
    hide Perform, WorkFor, Commit, Exact, Sound, NextOk, EngineInv, InOrder, Ready, SnapOf, Opened, Run, SemanticsOk, RecordsOf;
    var w, e' := WorkFor(e, call, env), Perform(hash, e, call, env).engine;
    ExactIsInv(hash, e);
    ExactCounts(hash, e);
    CallDoesItsWork(hash, e, call, env, env.faults);
    WorkIsLawful(hash, e, call, env);
    if !w.Committing? {
      InStepNeverDiverges(hash, e', actions, newLogId);
    } else if !Misled(w.flow, w.entry, env.faults) {
      NotMisledIsInStep(hash, w.flow, e, w.record, w.entry, env.faults);
      InStepNeverDiverges(hash, e', actions, newLogId);
    } else {
      OnlyAppliesRefuse(e, call, env);
      FailedAppend(hash, w.flow, e, w.record, w.entry, env.faults);
      CallGrowsInOrder(hash, e, call, env);
      UntroubledGrows(hash, e', actions);
      IllegalNeverOpens(hash, e.disk.wal.records, w.record, Run(hash, Up(e'), actions).engine.disk, newLogId);
    }
  }
}
