/**
 The transaction engine as the object it is: one serialized caller changing a table, a counter, a
 mode, a log, an event log and an index, write by write. Every method is proved to do exactly what
 EngineModel.dfy says of the same call.
 */
module EngineObjects {
  import opened Wrappers
  import opened TxStates
  import opened Wal
  import opened Events
  import opened Idempotency
  import opened Recovery
  import opened EngineModel
  import opened EngineEvents

  class TransactionEngine {
    const wal: WalStore
    const events: EventLog
    const idempotency: IdempotencyStore
    var txs: TxTable
    var nextSeq: nat
    var safeMode: bool

    ghost function View(): Engine
      reads this, wal, events, idempotency
    {
      Engine(Disk(wal.disk, events.disk, idempotency.files),
             Memory(txs, nextSeq, safeMode, events.meta, idempotency.entries))
    }

    /** Whatever the index files are named, each key gets an entry of one of its files. */
    constructor OpenOwned(hash: HashFunction, disk: Disk, newLogId: string)
      ensures fresh(wal) && fresh(events) && fresh(idempotency) && idempotency.hash == hash
      ensures exists loaded :: ReadFrom(disk.index, loaded) && View() == OpenedWith(disk, newLogId, loaded)
      ensures Named(hash, disk.index) ==> View() == Opened(hash, disk, newLogId)
    {
      hide ReadFrom, ConsistentWithCheckpoint, Intact, SemanticsOk, EventsMatch, TableOf, Loaded, Merged, MaxSeq;
      var w := new WalStore.Open(disk.wal);
      var recovered := w.Recover();
      var safe := recovered.None?;
      var ev := new EventLog.Open(disk.events, newLogId);
      var intact := ev.ValidateIntegrity();
      if !intact {
        safe := true;
      }
      var index := new IdempotencyStore.Open(hash, disk.index);
      var records := recovered.GetOr([]);
      ghost var loaded := index.entries;
      index.MergeFromWal(records);
      if !safe {
        var legal := ValidateWalSemantics(records);
        safe := !legal;
      }
      if !safe {
        IntactIsReadable(ev.disk, ev.meta.nextSeq);
        var matching := ValidateEventsAgainstWal(records, ev.disk.lines);
        safe := !matching;
      }
      var table: TxTable, last := map[], 0;
      if !safe {
        table, last := RebuildTable(records);
      }
      wal, events, idempotency := w, ev, index;
      txs, nextSeq, safeMode := table, last, safe;
      new;
      assert View() == OpenedWith(disk, newLogId, loaded);
    }

    // ----- The single writes -----

    method PersistTransition(
      txId: string, state: TxState, entry: Option<IndexEntry>, identity: Identity, result: StoredResult, io: Io)
      returns (reply: Result<nat, EngineError>)
      modifies this, wal
      ensures var o := EngineModel.PersistTransition(old(View()), RecordFor(old(View()), txId, state, entry, identity, result), io);
        && View() == o.engine
        && reply == if o.reply.Ok? then Ok(old(nextSeq) + 1) else Err(o.reply.error)
    {
      hide WalRun;
      if safeMode {
        return Err(SafeMode);
      }
      nextSeq := nextSeq + 1;
      var record := WalRecord(SUPPORTED_RECORD_VERSION, nextSeq, txId, state,
                              if entry.Some? then Some(entry.value.key.key) else None,
                              if entry.Some? then Some(entry.value.fingerprint) else None,
                              identity, None, Some(result));
      var ok := wal.AppendTransition(record, io);
      if !ok {
        return Err(Storage);
      }
      txs := txs[txId := TxSnapshot(txId, state, identity)];
      return Ok(nextSeq);
    }

    method RollbackTransition(txId: string, seqNo: nat, io: Io) returns (reply: Result<(), EngineError>)
      modifies this, wal
      ensures var o := EngineModel.RollbackTransition(old(View()), txId, seqNo, io);
        View() == o.engine && reply == o.reply
    {
      hide WalRun;
      var ok := wal.RevertLastTransition(seqNo, io);
      if !ok {
        return Err(Storage);
      }
      txs := txs - {txId};
      nextSeq := Previous(seqNo);
      safeMode := true;
      return Ok(());
    }

    method AppendStateEvent(txId: string, state: TxState, io: Io) returns (reply: Result<(), EngineError>)
      modifies this`safeMode, events
      ensures var o := EngineModel.AppendStateEvent(old(View()), txId, state, io);
        View() == o.engine && reply == o.reply
    {
      hide EventRun;
      var ok := events.Append(EventRecord(TX_STATE_KIND, TxStatePayload(txId, state)), io);
      if !ok {
        safeMode := true;
        return Err(SafeMode);
      }
      return Ok(());
    }

    method RecordIdempotency(entry: IndexEntry, io: Io) returns (reply: Result<(), EngineError>)
      modifies idempotency
      ensures var o := EngineModel.RecordIdempotency(idempotency.hash, old(View()), entry, io);
        View() == o.engine && reply == o.reply
    {
      hide InsertedFiles;
      var ok := idempotency.Insert(entry, io);
      return if ok then Ok(()) else Err(Storage);
    }

    /** Removal is best effort. */
    method RemoveIdempotency(key: IdemKey, io: Io)
      modifies idempotency
      ensures View() == EngineModel.RemoveIdempotency(idempotency.hash, old(View()), key, io).engine
    {
      var ok := idempotency.Remove(key, io);
    }

    method LookupIdempotencyFromWal(key: IdemKey, fingerprint: string, env: Env) returns (found: Lookup)
      ensures found == LookupFromWal(View(), key, fingerprint, env)
    {
      if !env.walReadable {
        return Missing;
      }
      var records := wal.disk.records;
      assert records == records[..|records|];
      for i := |records| downto 0
        invariant LookupIn(records, key, fingerprint) == LookupIn(records[..i], key, fingerprint)
      {
        var r := records[i];
        assert records[..i + 1][..i] == records[..i];
        if Carries(r, key) {
          if r.fingerprint.GetOr("") != fingerprint {
            return Conflict;
          }
          if r.result.Some? {
            return Found(IndexEntry(key, r.txId, fingerprint, r.result.value));
          }
        }
      }
      return Missing;
    }

    // ----- Committing -----

    /** The object is where the model's outcome is, and answers the same. */
    ghost predicate Did<T>(o: Outcome<T>, reply: Result<T, EngineError>)
      reads this, wal, events, idempotency
    {
      View() == o.engine && reply == o.reply
    }

    method Undo(v: EngineError, txId: string, seqNo: nat, key: Option<IdemKey>, f: Faults) returns (reply: Result<(), EngineError>)
      modifies this, wal, idempotency
      ensures forall p: Outcome<()>, r: WalRecord ::
                p.engine == old(View()) && r.txId == txId && r.seqNo == seqNo ==>
                  Did(EngineModel.Undo(idempotency.hash, p, r, key, v, f), reply)
    {
      hide WalRun, RemovedFiles;
      var back := RollbackTransition(txId, seqNo, f.revertIo);
      if back.Err? {
        return back;
      }
      if key.Some? {
        RemoveIdempotency(key.value, f.removeIo);
      }
      return Err(v);
    }

    method CommitProposal(
      txId: string, entry: IndexEntry, identity: Identity, result: StoredResult, f: Faults)
      returns (reply: Result<(), EngineError>)
      modifies this, wal, events, idempotency
      ensures var e := old(View());
        Did(Commit(idempotency.hash, Proposing, e, RecordFor(e, txId, Proposed, Some(entry), identity, result), Some(entry), f), reply)
    {
      hide EngineModel.PersistTransition, EngineModel.RecordIdempotency, EngineModel.AppendStateEvent, EngineModel.Undo;
      ghost var e := View();
      ghost var r := RecordFor(e, txId, Proposed, Some(entry), identity, result);
      ghost var p := EngineModel.PersistTransition(e, r, f.walIo);
      var seqNo := PersistTransition(txId, Proposed, Some(entry), identity, result, f.walIo);
      if seqNo.Err? {
        return Err(seqNo.error);
      }
      ghost var i := EngineModel.RecordIdempotency(idempotency.hash, p.engine, entry, f.indexIo);
      var indexed := RecordIdempotency(entry, f.indexIo);
      if indexed.Err? {
        IndexFailsWithStorage(idempotency.hash, p.engine, entry, f.indexIo);
        return Err(indexed.error);
      }
      ghost var w := EngineModel.AppendStateEvent(i.engine, txId, Proposed, f.eventIo);
      var told := AppendStateEvent(txId, Proposed, f.eventIo);
      if told.Err? {
        EventFailsWithSafeMode(i.engine, txId, Proposed, f.eventIo);
        assert w.(trace := p.trace + i.trace + w.trace).engine == View();
        reply := Undo(told.error, txId, seqNo.value, Some(entry.key), f);
        return;
      }
      return told;
    }

    method CommitStep(
      txId: string, state: TxState, entry: Option<IndexEntry>, identity: Identity, result: StoredResult, f: Faults)
      returns (reply: Result<(), EngineError>)
      modifies this, wal, events, idempotency
      ensures var e := old(View());
        Did(Commit(idempotency.hash, Stepping, e, RecordFor(e, txId, state, entry, identity, result), entry, f), reply)
    {
      hide EngineModel.PersistTransition, EngineModel.RecordIdempotency, EngineModel.AppendStateEvent, EngineModel.Undo;
      ghost var e := View();
      ghost var r := RecordFor(e, txId, state, entry, identity, result);
      ghost var p := EngineModel.PersistTransition(e, r, f.walIo);
      var seqNo := PersistTransition(txId, state, entry, identity, result, f.walIo);
      if seqNo.Err? {
        return Err(seqNo.error);
      }
      ghost var i := Outcome(p.engine, Ok(()), []);
      if entry.Some? {
        i := EngineModel.RecordIdempotency(idempotency.hash, p.engine, entry.value, f.indexIo);
        var indexed := RecordIdempotency(entry.value, f.indexIo);
        if indexed.Err? {
          IndexFailsWithStorage(idempotency.hash, p.engine, entry.value, f.indexIo);
          assert i.(trace := p.trace + i.trace).engine == View();
          reply := Undo(indexed.error, txId, seqNo.value, None, f);
          return;
        }
      }
      ghost var w := EngineModel.AppendStateEvent(i.engine, txId, state, f.eventIo);
      var told := AppendStateEvent(txId, state, f.eventIo);
      if told.Err? {
        EventFailsWithSafeMode(i.engine, txId, state, f.eventIo);
        assert w.(trace := p.trace + i.trace + w.trace).engine == View();
        reply := Undo(told.error, txId, seqNo.value, EntryKey(entry), f);
        return;
      }
      return told;
    }

    method CommitRefusal(snap: TxSnapshot, entry: IndexEntry, result: StoredResult, f: Faults)
      returns (reply: Result<(), EngineError>)
      requires entry.txId in txs && txs[entry.txId] == snap
      modifies this, wal, events, idempotency
      ensures var e := old(View());
        Did(Commit(idempotency.hash, Refusing, e, RecordFor(e, entry.txId, Rejected, Some(entry), snap.identity, result), Some(entry), f), reply)
    {
      hide WalRun, EventRun, InsertedFiles;
      ghost var e := View();
      ghost var r := RecordFor(e, entry.txId, Rejected, Some(entry), snap.identity, result);
      ghost var p := EngineModel.PersistTransition(e, r, f.walIo);
      var seqNo := PersistTransition(entry.txId, Rejected, Some(entry), snap.identity, result, f.walIo);
      if seqNo.Err? {
        return Err(seqNo.error);
      }
      var told := AppendStateEvent(entry.txId, Rejected, f.eventIo);
      if told.Err? {
        var reverted := wal.RevertLastTransition(seqNo.value, f.revertIo);
        if !reverted {
          return Err(Storage);
        }
        nextSeq := Previous(seqNo.value);
        txs := txs[entry.txId := snap];
        assert txs == e.mem.txs;
        return told;
      }
      reply := RecordIdempotency(entry, f.indexIo);
    }

    // ----- The operations -----

    method ReplayFound(op: Operation, entry: IndexEntry, f: Faults) returns (reply: Result<Reply, EngineError>)
      modifies this, wal, events, idempotency
      ensures Did(EngineModel.ReplayFound(idempotency.hash, old(View()), op, entry, f), reply)
    {
      hide EngineModel.RecordIdempotency, EngineModel.AppendStateEvent;
      var stored := Replayed(op, entry.result);
      if op.ConfigPropose? && stored.Err? {
        return stored;
      }
      var indexed := RecordIdempotency(entry, f.indexIo);
      if indexed.Err? {
        return Err(indexed.error);
      }
      if op.ConfigPropose? {
        var told := AppendStateEvent(stored.value.proposedTx, Proposed, f.eventIo);
        if told.Err? {
          return Err(told.error);
        }
      }
      return stored;
    }

    method ConfigPropose(call: Call, env: Env) returns (reply: Result<Reply, EngineError>)
      requires call.Propose?
      modifies this, wal, events, idempotency
      ensures Did(ConfigProposeCall(idempotency.hash, old(View()), call, env), reply)
    {
      hide LookupIn, Commit, EngineModel.ReplayFound;
      if safeMode {
        return Err(SafeMode);
      }
      var key := KeyOf(call);
      var known := idempotency.Get(key);
      if known.Some? {
        if known.value.fingerprint != call.fingerprint {
          return Err(IdempotencyConflict);
        }
        return Replayed(Operation.ConfigPropose, known.value.result);
      }
      var found := LookupIdempotencyFromWal(key, call.fingerprint, env);
      if found.Conflict? {
        return Err(IdempotencyConflict);
      }
      if found.Found? {
        reply := ReplayFound(Operation.ConfigPropose, found.entry, env.faults);
        return;
      }
      if env.staged.Err? {
        return Err(ProposeRejected(env.staged.error));
      }
      var result := ProposedResult(env);
      var entry := IndexEntry(key, env.freshTxId, call.fingerprint, result);
      var done := CommitProposal(env.freshTxId, entry, ProposeIdentity(call, env), result, env.faults);
      if done.Err? {
        return Err(done.error);
      }
      return Ok(ReplyOf(result));
    }

    method Transition(call: Call, target: TxState, binding: Option<(IdemKey, string)>, env: Env)
      returns (reply: Result<Reply, EngineError>)
      requires !call.Propose?
      modifies this, wal, events, idempotency
      ensures Did(EngineModel.Transition(idempotency.hash, old(View()), call, target, binding, env), reply)
    {
      hide Commit;
      if call.txId !in txs {
        return Err(NotFound);
      }
      var snap := txs[call.txId];
      if !Owns(snap, call.agentId, call.digest) {
        return Err(OwnershipMismatch);
      }
      if !BrokerMayEnter(snap.state, target) {
        return Err(InvalidTransition);
      }
      var result := StepResult(call.txId, target);
      var entry := if binding.None? then None else Some(IndexEntry(binding.value.0, call.txId, binding.value.1, result));
      var done := CommitStep(call.txId, target, entry, snap.identity, result, env.faults);
      if done.Err? {
        return Err(done.error);
      }
      return Ok(ReplyOf(result));
    }

    method TxTest(call: Call, env: Env) returns (reply: Result<Reply, EngineError>)
      requires call.Test?
      modifies this, wal, events, idempotency
      ensures Did(TxTestCall(idempotency.hash, old(View()), call, env), reply)
    {
      hide EngineModel.Transition;
      if safeMode {
        return Err(SafeMode);
      }
      reply := Transition(call, Testing, None, env);
    }

    method TxApply(call: Call, env: Env) returns (reply: Result<Reply, EngineError>)
      requires call.ApplyTx?
      modifies this, wal, events, idempotency
      ensures Did(TxApplyCall(idempotency.hash, old(View()), call, env), reply)
    {
      hide LookupIn, Commit, EngineModel.ReplayFound, EngineModel.Transition;
      if safeMode {
        return Err(SafeMode);
      }
      var key := KeyOf(call);
      var known := idempotency.Get(key);
      if known.Some? {
        if known.value.fingerprint != call.fingerprint {
          return Err(IdempotencyConflict);
        }
        return Replayed(Operation.TxApply, known.value.result);
      }
      var found := LookupIdempotencyFromWal(key, call.fingerprint, env);
      if found.Conflict? {
        return Err(IdempotencyConflict);
      }
      if found.Found? {
        reply := ReplayFound(Operation.TxApply, found.entry, env.faults);
        return;
      }
      if call.txId !in txs {
        return Err(NotFound);
      }
      var snap := txs[call.txId];
      if !Owns(snap, call.agentId, call.digest) {
        return Err(OwnershipMismatch);
      }
      if snap.identity.baseRevision != env.currentBase {
        var result := StepResult(call.txId, Rejected);
        var done := CommitRefusal(snap, IndexEntry(key, call.txId, call.fingerprint, result), result, env.faults);
        return Err(if done.Err? then done.error else BaseRevisionMoved);
      }
      reply := Transition(call, Applying, Some((key, call.fingerprint)), env);
    }

    method AdvanceToProbation(call: Call, env: Env) returns (reply: Result<Reply, EngineError>)
      requires call.Advance?
      modifies this, wal, events, idempotency
      ensures Did(AdvanceCall(idempotency.hash, old(View()), call, env), reply)
    {
      hide EngineModel.Transition;
      if safeMode {
        return Err(SafeMode);
      }
      if call.txId !in txs {
        return Err(NotFound);
      }
      if txs[call.txId].state.Probation? {
        return Err(WatchdogAuthorityRequired);
      }
      reply := Transition(call, Probation, None, env);
    }

    /**
     Outside safe mode and with the events in order: the events after the cursor, or all of them,
     and a cursor at the last one; a cursor of another log or beyond the end is not found.
     */
    method EventsReplay(cursor: Option<EventCursor>) returns (reply: Result<(seq<StoredEvent>, EventCursor), EngineError>)
      ensures reply == Replied(View(), cursor, View())
      ensures reply == Err(SafeMode) <==> safeMode
      ensures reply.Ok? ==> reply.value.1.logId == events.meta.logId
      ensures cursor.Some? && cursor.value.logId != events.meta.logId ==> reply.Err?
      ensures !safeMode && EngineEventsInOrder(View()) ==>
                var lines, from := events.disk.lines, if cursor.None? then 0 else cursor.value.seqNo;
                && (reply.Ok? <==> (cursor.Some? ==> cursor.value.logId == events.meta.logId)
                                   && (from <= |lines| || lines == []))
                && (reply.Err? ==> reply.error == NotFound)
                && (reply.Ok? ==> reply.value.0 == (if from <= |lines| then lines[from..] else [])
                                  && reply.value.1.seqNo == |lines|)
    {
      if safeMode {
        return Err(SafeMode);
      }
      var from := cursor.GetOr(EventCursor(events.meta.logId, 0));
      if EventsNumbered(events.disk.lines) {
        ReplayReturnsLaterEvents(events.disk.lines, from.seqNo);
      }
      var later := events.Replay(from);
      var next := events.LatestCursor();
      return if later.Err? then Err(NotFound) else Ok((later.value, next));
    }
  }

  lemma IntactIsReadable(d: EventDisk, nextSeq: nat)
    requires Intact(d, nextSeq)
    ensures ReadAll(d) == Some(d.lines)
  {
  }

  lemma IndexFailsWithStorage(hash: HashFunction, e: Engine, entry: IndexEntry, io: Io)
    ensures var i := EngineModel.RecordIdempotency(hash, e, entry, io);
      i.reply.Err? ==> i.reply.error == Storage
  {
  }

  lemma EventFailsWithSafeMode(e: Engine, txId: string, state: TxState, io: Io)
    ensures var v := EngineModel.AppendStateEvent(e, txId, state, io);
      v.reply.Err? ==> v.reply.error == SafeMode
  {
  }
}
