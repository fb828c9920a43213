/** Stored event numbers are 1 to n in every run, whatever fails or crashes. */
module EngineEvents {
  import opened Wrappers
  import opened TxStates
  import opened Wal
  import opened Events
  import opened Idempotency
  import opened EngineModel
  import opened EngineTraces
  import opened EngineRuns

  /** A line whose break is missing was never counted in the metadata, so it can never be accepted. */
  predicate EventsInOrder(d: EventDisk) {
    && EventsNumbered(d.lines)
    && (if d.meta.None? then d.lines == [] && d.tail.Clean? else d.tail.Unended? ==> d.meta.value.nextSeq <= |d.lines|)
  }

  /** Outside safe mode the metadata, in memory and on disk, points one past the last line. */
  predicate EngineEventsInOrder(e: Engine) {
    && EventsInOrder(e.disk.events)
    && (!e.mem.safeMode ==>
          && e.disk.events.tail.Clean? && e.disk.events.meta == Some(e.mem.eventMeta)
          && e.mem.eventMeta.nextSeq == |e.disk.events.lines| + 1)
  }

  predicate SystemEventsInOrder(sys: System) {
    EventsInOrder(DiskOf(sys).events) && (sys.Up? ==> EngineEventsInOrder(sys.engine))
  }

  /**
   What `events_replay` answers: the events after the cursor as the engine is when they are read,
   and the cursor as it is when that is taken, under a second lock.
   */
  function Replied(e: Engine, cursor: Option<EventCursor>, later: Engine): Result<(seq<StoredEvent>, EventCursor), EngineError> {
    if e.mem.safeMode then Err(SafeMode)
    else
      var events := ReplayFrom(e.disk.events, e.mem.eventMeta, cursor.GetOr(EventCursor(e.mem.eventMeta.logId, 0)));
      if events.Err? then Err(NotFound)
      else Ok((events.value, EventCursor(later.mem.eventMeta.logId, LastSeq(later.mem.eventMeta))))
  }

  /** The events of a call: untouched, or one append with its fate. */
  predicate AtMostOneEvent(e: Engine, txId: string, state: TxState, io: Io, e': Engine) {
    || (e'.disk.events == e.disk.events && e'.mem.eventMeta == e.mem.eventMeta)
    || EventAppended(e, txId, state, io, e')
  }

  predicate EventAppended(e: Engine, txId: string, state: TxState, io: Io, e': Engine) {
    var v := AppendStateEvent(e, txId, state, io).engine;
    e'.disk.events == v.disk.events && e'.mem.eventMeta == v.mem.eventMeta && (io.FailedAfter? ==> e'.mem.safeMode)
  }

  lemma UndoLeavesEvents(hash: HashFunction, v: Outcome<()>, r: WalRecord, key: Option<IdemKey>, error: EngineError, f: Faults)
    ensures var e' := Undo(hash, v, r, key, error, f).engine;
      && e'.disk.events == v.engine.disk.events && e'.mem.eventMeta == v.engine.mem.eventMeta
      && (v.engine.mem.safeMode ==> e'.mem.safeMode)
  {
    hide WalRun, RemovedFiles;
  }

  lemma SameEventsAppendAlike(a: Engine, b: Engine, txId: string, state: TxState, io: Io)
    requires a.disk.events == b.disk.events && a.mem.eventMeta == b.mem.eventMeta
    ensures EventAppended(a, txId, state, io, AppendStateEvent(b, txId, state, io).engine)
  {
    hide EventRun;
  }

  lemma CommitEvents(hash: HashFunction, flow: Flow, e: Engine, r: WalRecord, entry: Option<IndexEntry>, f: Faults)
    requires !flow.Stepping? ==> entry.Some?
    ensures AtMostOneEvent(e, r.txId, r.state, f.eventIo, Commit(hash, flow, e, r, entry, f).engine)
  {
    hide WalRun, InsertedFiles, Undo, AppendStateEvent, EventAppended, RevertSucceeds;
    var p := PersistTransition(e, r, f.walIo);
    if p.reply.Ok? {
      var i := if flow.Refusing? || entry.None? then Outcome(p.engine, Ok(()), [])
               else RecordIdempotency(hash, p.engine, entry.value, f.indexIo);
      SameEventsAppendAlike(e, i.engine, r.txId, r.state, f.eventIo);
      var v := AppendStateEvent(i.engine, r.txId, r.state, f.eventIo);
      AppendedThenKept(e, r.txId, r.state, f.eventIo, v.engine, Commit(hash, flow, e, r, entry, f).engine);
      var i' := i.(trace := p.trace + i.trace);
      UndoLeavesEvents(hash, i', r, None, Storage, f);
      UndoLeavesEvents(hash, v.(trace := i'.trace + v.trace), r, EntryKey(entry), SafeMode, f);
    }
  }

  lemma AppendedThenKept(e: Engine, txId: string, state: TxState, io: Io, v: Engine, e': Engine)
    requires EventAppended(e, txId, state, io, v)
    ensures e'.disk.events == v.disk.events && e'.mem.eventMeta == v.mem.eventMeta && (v.mem.safeMode ==> e'.mem.safeMode)
            ==> EventAppended(e, txId, state, io, e')
  {
    hide EventRun;
  }

  lemma WriteBackEvents(hash: HashFunction, e: Engine, op: Operation, entry: IndexEntry, f: Faults)
    ensures AtMostOneEvent(e, entry.result.txId, Proposed, f.eventIo, ReplayFound(hash, e, op, entry, f).engine)
  {
    hide InsertedFiles, AppendStateEvent, EventAppended;
    var reply := Replayed(op, entry.result);
    if op.ConfigPropose? && reply.Ok? {
      SameEventsAppendAlike(e, RecordIdempotency(hash, e, entry, f.indexIo).engine, reply.value.proposedTx, Proposed, f.eventIo);
    }
  }

  /** What an event append leaves of the lines: all of them, and at most one more. */
  lemma OneEventKeepsOrder(e: Engine, txId: string, state: TxState, io: Io, e': Engine)
    requires EngineEventsInOrder(e) && !e.mem.safeMode && AtMostOneEvent(e, txId, state, io, e')
    ensures EngineEventsInOrder(e')
    ensures || e'.disk.events.lines == e.disk.events.lines
            || e'.disk.events.lines == e.disk.events.lines +
                 [StoredEvent(e.mem.eventMeta.nextSeq, TX_STATE_KIND, TxStatePayload(txId, state))]
  {
    if EventAppended(e, txId, state, io, e') {
      hide EventRun, EventSteps;
      var stored := StoredEvent(e.mem.eventMeta.nextSeq, TX_STATE_KIND, TxStatePayload(txId, state));
      UnrollEvent(e.disk.events, stored, e.mem.eventMeta.(nextSeq := e.mem.eventMeta.nextSeq + 1), io);
    }
  }

  lemma CallKeepsEvents(hash: HashFunction, e: Engine, call: Call, env: Env)
    requires EngineEventsInOrder(e)
    ensures EngineEventsInOrder(Perform(hash, e, call, env).engine)
  {
    hide Perform, WorkFor, Commit, ReplayFound, AtMostOneEvent, EngineEventsInOrder;
    CallDoesItsWork(hash, e, call, env, env.faults);
    WorkNeedsNormalMode(e, call, env);
    match WorkFor(e, call, env) {
      case NoWork =>
      case Committing(flow, r, entry) =>
        CommitEvents(hash, flow, e, r, entry, env.faults);
        OneEventKeepsOrder(e, r.txId, r.state, env.faults.eventIo, Commit(hash, flow, e, r, entry, env.faults).engine);
      case WritingBack(op, entry) =>
        WriteBackEvents(hash, e, op, entry, env.faults);
        OneEventKeepsOrder(e, entry.result.txId, Proposed, env.faults.eventIo, ReplayFound(hash, e, op, entry, env.faults).engine);
    }
  }

  lemma WorkNeedsNormalMode(e: Engine, call: Call, env: Env)
    ensures !WorkFor(e, call, env).NoWork? ==> !e.mem.safeMode
  {
    hide LookupIn;
  }

  lemma OpenKeepsEvents(hash: HashFunction, disk: Disk, newLogId: string)
    requires Named(hash, disk.index) && EventsInOrder(disk.events)
    ensures EngineEventsInOrder(Opened(hash, disk, newLogId))
  {
    hide Recovered, Recovery.SemanticsOk, Recovery.EventsMatch, Recovery.TableOf, Merged, Loaded, MaxSeq;
  }

  lemma StepKeepsEvents(hash: HashFunction, sys: System, a: Action)
    requires Named(hash, DiskOf(sys).index) && SystemEventsInOrder(sys)
    ensures SystemEventsInOrder(Step(hash, sys, a))
  {
    hide Perform, Opened, CrashDisk, EventsInOrder;
    match a {
      case Stop =>
      case Start(newLogId) =>
        if sys.Down? {
          OpenKeepsEvents(hash, sys.disk, newLogId);
        }
      case Serve(call, env) =>
        if sys.Up? {
          CallKeepsEvents(hash, sys.engine, call, env);
        }
      case CrashIn(call, env, after) =>
        if sys.Up? {
          var f := CrashDiskIsFaultDisk(hash, sys.engine, call, env, after);
          CallKeepsEvents(hash, sys.engine, call, env.(faults := f));
        }
    }
  }

  /** In every run, stored event numbers are 1 to n, and a live engine's next number is n + 1. */
  lemma {:induction false} EventNumbersAreConsecutive(hash: HashFunction, actions: seq<Action>)
    ensures SystemEventsInOrder(FromFresh(hash, actions))
    ensures EventsNumbered(DiskOf(FromFresh(hash, actions)).events.lines)
  {
    hide Step;
    if actions != [] {
      EventNumbersAreConsecutive(hash, actions[..|actions| - 1]);
      StepKeepsEvents(hash, FromFresh(hash, actions[..|actions| - 1]), actions[|actions| - 1]);
    }
  }
}
