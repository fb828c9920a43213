/**
 Whole runs of the broker: openings, calls under any storage faults, crashes between any two disk
 steps, and stops. The main result is that reopening after a crash finds the table from before the
 call, the table from after it, or safe mode.
 */
module EngineRuns {
  import opened Wrappers
  import opened TxStates
  import opened Wal
  import opened Events
  import opened Idempotency
  import opened Recovery
  import opened EngineModel
  import opened EngineTraces

  // ----- The system -----

  datatype System = Down(disk: Disk) | Up(engine: Engine)

  /** A crash strikes after the given number of the call's disk steps. */
  datatype Action =
    | Start(newLogId: string)
    | Serve(call: Call, env: Env)
    | CrashIn(call: Call, env: Env, after: nat)
    | Stop

  function DiskOf(sys: System): Disk {
    if sys.Down? then sys.disk else sys.engine.disk
  }

  function CrashDisk(hash: HashFunction, e: Engine, call: Call, env: Env, after: nat): Disk {
    var trace := Perform(hash, e, call, env).trace;
    ApplyAll(hash, e.disk, if after <= |trace| then trace[..after] else trace)
  }

  ghost function Step(hash: HashFunction, sys: System, a: Action): (sys': System)
    requires Named(hash, DiskOf(sys).index)
    ensures Named(hash, DiskOf(sys').index)
  {
    match a
    case Stop => Down(DiskOf(sys))
    case Start(newLogId) => if sys.Up? then sys else Up(Opened(hash, sys.disk, newLogId))
    case Serve(call, env) =>
      if sys.Down? then sys
      else
        PerformKeepsNames(hash, sys.engine, call, env);
        Up(Perform(hash, sys.engine, call, env).engine)
    case CrashIn(call, env, after) =>
      if sys.Down? then sys
      else
        CrashKeepsNames(hash, sys.engine, call, env, after);
        Down(CrashDisk(hash, sys.engine, call, env, after))
  }

  ghost function Run(hash: HashFunction, sys: System, actions: seq<Action>): (sys': System)
    requires Named(hash, DiskOf(sys).index)
    ensures Named(hash, DiskOf(sys').index)
  {
    if actions == [] then sys else Step(hash, Run(hash, sys, actions[..|actions| - 1]), actions[|actions| - 1])
  }

  ghost function FromFresh(hash: HashFunction, actions: seq<Action>): (sys: System)
    ensures Named(hash, DiskOf(sys).index)
  {
    Run(hash, Down(FRESH_DISK), actions)
  }

  lemma {:induction false} StepsKeepNames(hash: HashFunction, d: Disk, steps: seq<DiskStep>)
    requires Named(hash, d.index)
    ensures Named(hash, ApplyAll(hash, d, steps).index)
  {
    if steps != [] {
      StepsKeepNames(hash, d, steps[..|steps| - 1]);
    }
  }

  lemma PerformKeepsNames(hash: HashFunction, e: Engine, call: Call, env: Env)
    requires Named(hash, e.disk.index)
    ensures Named(hash, Perform(hash, e, call, env).engine.disk.index)
  {
    hide Perform, ApplyAll;
    TraceIsEffect(hash, e, call, env);
    StepsKeepNames(hash, e.disk, Perform(hash, e, call, env).trace);
  }

  lemma CrashKeepsNames(hash: HashFunction, e: Engine, call: Call, env: Env, after: nat)
    requires Named(hash, e.disk.index)
    ensures Named(hash, CrashDisk(hash, e, call, env, after).index)
  {
    hide Perform, ApplyAll;
    var trace := Perform(hash, e, call, env).trace;
    StepsKeepNames(hash, e.disk, if after <= |trace| then trace[..after] else trace);
  }

  /** Crashing inside a call leaves the disk of the same call under other faults. */
  lemma CrashDiskIsFaultDisk(hash: HashFunction, e: Engine, call: Call, env: Env, after: nat) returns (f: Faults)
    ensures CrashDisk(hash, e, call, env, after) == Perform(hash, e, call, env.(faults := f)).engine.disk
  {
    hide Perform, ApplyAll;
    var trace := Perform(hash, e, call, env).trace;
    assert trace[..|trace|] == trace;
    f := CrashIsFault(hash, e, call, env, if after <= |trace| then after else |trace|);
  }

  // ----- Holes in the record numbering -----

  predicate Ordered(records: seq<WalRecord>) {
    && (forall i, j :: 0 <= i < j < |records| ==> records[i].seqNo < records[j].seqNo)
    && forall i :: 0 <= i < |records| ==> 1 <= records[i].seqNo
  }

  predicate Below(records: seq<WalRecord>, limit: nat) {
    forall i :: 0 <= i < |records| ==> records[i].seqNo <= limit
  }

  predicate Absent(records: seq<WalRecord>, m: nat) {
    forall i :: 0 <= i < |records| ==> records[i].seqNo != m
  }

  predicate Above(records: seq<WalRecord>, m: nat) {
    exists i :: 0 <= i < |records| && records[i].seqNo > m
  }

  /** Number `m` is missing although the checkpoint or a later record has passed it. */
  predicate Hole(wal: WalDisk, m: nat) {
    1 <= m && Absent(wal.records, m) && (CheckpointSeq(wal) >= m || Above(wal.records, m))
  }

  ghost predicate Broken(wal: WalDisk, limit: nat) {
    exists m: nat :: m <= limit && Hole(wal, m)
  }

  lemma HoleNeverRecovers(wal: WalDisk, m: nat)
    requires Hole(wal, m)
    ensures Recovered(wal).None?
  {
    RecoveredExactly(wal);
    if Numbered(wal.records) {
      NumberedMissesNone(wal.records);
    }
  }

  lemma NumberedMissesNone(records: seq<WalRecord>)
    requires Numbered(records)
    ensures forall m :: 1 <= m <= |records| ==> !Absent(records, m)
  {
    forall m | 1 <= m <= |records| ensures !Absent(records, m) {
      assert records[m - 1].seqNo == m;
    }
  }

  // ----- What a commit leaves of the log -----

  lemma {:induction false} WithoutNewer(records: seq<WalRecord>, seqNo: nat)
    requires forall i :: 0 <= i < |records| ==> records[i].seqNo < seqNo
    ensures Without(records, seqNo) == records
  {
    if records != [] {
      WithoutNewer(records[..|records| - 1], seqNo);
    }
  }

  lemma RevertUndoesAppend(wal: WalDisk, older: seq<WalRecord>, r: WalRecord, io: Io)
    requires wal.records == older + [r]
    requires forall i :: 0 <= i < |older| ==> older[i].seqNo < r.seqNo
    ensures var after := WalRun(wal, RevertSteps(r.seqNo), io);
      && after.records == (if StepsDone(io, |RevertSteps(r.seqNo)|) == 0 then wal.records else older)
      && (StepsDone(io, 3) < 3 ==> CheckpointSeq(after) == CheckpointSeq(wal) || r.seqNo <= 1)
      && (CheckpointSeq(after) == CheckpointSeq(wal) || CheckpointSeq(after) == Previous(r.seqNo))
  {
    WithoutNewer(older, r.seqNo);
    assert (older + [r])[..|older|] == older;
    UnrollRevert(wal, r.seqNo, io);
  }

  /** A write that reports an error although everything that counts took effect, if it is reached. */
  predicate Misreported(f: Faults) {
    || (f.walIo.FailedAfter? && f.walIo.done >= 2)
    || (f.revertIo.FailedAfter? && f.revertIo.done >= 3)
  }

  /** The one path on which a failed revert leaves the engine in service: an index error during a step. */
  predicate RevertFails(flow: Flow, entry: Option<IndexEntry>, f: Faults) {
    flow.Stepping? && entry.Some? && f.walIo.Completed? && f.indexIo.FailedAfter? && f.revertIo.FailedAfter?
  }

  /** An append whose record was renamed, or a reached revert that was carried out, and that reported an error. */
  predicate Misled(flow: Flow, entry: Option<IndexEntry>, f: Faults) {
    (f.walIo.FailedAfter? && f.walIo.done >= 2) || (RevertFails(flow, entry, f) && f.revertIo.done >= 3)
  }

  /** The work's own writes, as far as it gets to them, mislead the engine. */
  predicate MisledIn(w: Work, f: Faults) {
    w.Committing? && Misled(w.flow, w.entry, f)
  }

  /** The engine can append: it is not in safe mode and every record's number was handed out. */
  predicate Ready(e: Engine) {
    !e.mem.safeMode && Ordered(e.disk.wal.records) && Below(e.disk.wal.records, e.mem.nextSeq)
  }

  lemma PersistEffect(e: Engine, r: WalRecord, io: Io)
    requires Ready(e) && r.seqNo == e.mem.nextSeq + 1
    ensures var o := PersistTransition(e, r, io);
      && o.engine == Engine(e.disk.(wal := o.engine.disk.wal), e.mem.(nextSeq := r.seqNo, txs := o.engine.mem.txs))
      && o.engine.mem.txs == (if io.Completed? then e.mem.txs[r.txId := SnapOf(r)] else e.mem.txs)
      && o.engine.disk.wal.records == (if StepsDone(io, 4) < 2 then e.disk.wal.records else e.disk.wal.records + [r])
      && CheckpointSeq(o.engine.disk.wal) == (if StepsDone(io, 4) < 4 then CheckpointSeq(e.disk.wal) else r.seqNo)
  {
    UnrollAppend(e.disk.wal, r, io);
  }

  /** The possible ends of a commit, as far as log, checkpoint, table and number are concerned. */
  ghost predicate Ended(e: Engine, r: WalRecord, f: Faults, e': Engine) {
    var before, wal := e.disk.wal.records, e'.disk.wal;
    && (wal.records == before || wal.records == before + [r])
    && (wal.records == before ==>
          CheckpointSeq(wal) == CheckpointSeq(e.disk.wal) || CheckpointSeq(wal) >= e.mem.nextSeq)
    && (!e'.mem.safeMode ==> e'.mem.nextSeq == r.seqNo)
    && (!e'.mem.safeMode && f.walIo.FailedAfter? ==>
          e'.mem.txs == e.mem.txs && (f.walIo.done < 2 ==> wal.records == before))
    && (!e'.mem.safeMode && f.walIo.Completed? ==>
          && e'.mem.txs == e.mem.txs[r.txId := SnapOf(r)]
          && (wal.records == before && !Misreported(f) ==> CheckpointSeq(wal) == r.seqNo))
  }

  /** What taking a just-written record back can leave. */
  lemma UndoEnds(hash: HashFunction, e: Engine, v: Outcome<()>, r: WalRecord, key: Option<IdemKey>, error: EngineError, f: Faults)
    requires Ready(e) && r.seqNo == e.mem.nextSeq + 1 && f.walIo.Completed?
    requires v.engine.disk.wal.records == e.disk.wal.records + [r] && CheckpointSeq(v.engine.disk.wal) == r.seqNo
    requires v.engine.mem.nextSeq == r.seqNo && v.engine.mem.txs == e.mem.txs[r.txId := SnapOf(r)]
    ensures Ended(e, r, f, Undo(hash, v, r, key, error, f).engine)
  {
    hide WalRun, RevertSteps, SnapOf;
    RevertUndoesAppend(v.engine.disk.wal, e.disk.wal.records, r, f.revertIo);
  }

  lemma IndexThenEventEnds(hash: HashFunction, flow: Flow, e: Engine, r: WalRecord, entry: Option<IndexEntry>, f: Faults)
    requires Ready(e) && r.seqNo == e.mem.nextSeq + 1 && f.walIo.Completed?
    ensures Ended(e, r, f, IndexThenEvent(hash, flow, PersistTransition(e, r, f.walIo), r, entry, f).engine)
  {
    hide Undo, EventRun, InsertedFiles, SnapOf, PersistTransition;
    PersistEffect(e, r, f.walIo);
    var p := PersistTransition(e, r, f.walIo);
    var i := if entry.None? then Outcome(p.engine, Ok(()), []) else RecordIdempotency(hash, p.engine, entry.value, f.indexIo);
    var i' := i.(trace := p.trace + i.trace);
    UndoEnds(hash, e, i', r, None, Storage, f);
    var v := AppendStateEvent(i.engine, r.txId, r.state, f.eventIo);
    UndoEnds(hash, e, v.(trace := i'.trace + v.trace), r, EntryKey(entry), SafeMode, f);
  }

  lemma EventThenIndexEnds(hash: HashFunction, e: Engine, r: WalRecord, entry: IndexEntry, f: Faults)
    requires Ready(e) && r.seqNo == e.mem.nextSeq + 1 && f.walIo.Completed?
    ensures Ended(e, r, f, EventThenIndex(hash, e.mem.txs, PersistTransition(e, r, f.walIo), r, entry, f).engine)
  {
    hide WalRun, RevertSteps, EventRun, InsertedFiles, SnapOf, PersistTransition;
    PersistEffect(e, r, f.walIo);
    var p := PersistTransition(e, r, f.walIo);
    RevertUndoesAppend(p.engine.disk.wal, e.disk.wal.records, r, f.revertIo);
  }

  lemma CommitEnds(hash: HashFunction, flow: Flow, e: Engine, r: WalRecord, entry: Option<IndexEntry>, f: Faults)
    requires !flow.Stepping? ==> entry.Some?
    requires Ready(e) && r.seqNo == e.mem.nextSeq + 1
    ensures Ended(e, r, f, Commit(hash, flow, e, r, entry, f).engine)
  {
    hide IndexThenEvent, EventThenIndex, SnapOf;
    PersistEffect(e, r, f.walIo);
    if f.walIo.Completed? {
      if flow.Refusing? {
        EventThenIndexEnds(hash, e, r, entry.value, f);
      } else {
        IndexThenEventEnds(hash, flow, e, r, entry, f);
      }
    }
  }

  /** A hole stays a hole, whatever the commit runs into. */
  lemma HoleStays(e: Engine, r: WalRecord, f: Faults, e': Engine, m: nat)
    requires Ready(e) && r.seqNo == e.mem.nextSeq + 1 && Ended(e, r, f, e')
    requires m <= e.mem.nextSeq && Hole(e.disk.wal, m)
    ensures Hole(e'.disk.wal, m)
  {
    var before, after := e.disk.wal.records, e'.disk.wal.records;
    if after != before {
      assert after[|before|].seqNo > m;
    }
  }

  // ----- The invariant: memory in step with the disk -----

  /** Reopening either finds a hole, or rebuilds the table held in memory. */
  ghost predicate InStep(e: Engine) {
    Broken(e.disk.wal, e.mem.nextSeq) || e.mem.txs == TableOf(e.disk.wal.records)
  }

  ghost predicate EngineInv(e: Engine) {
    Ordered(e.disk.wal.records) && (!e.mem.safeMode ==> Ready(e) && InStep(e))
  }

  ghost predicate SystemInv(sys: System) {
    Ordered(DiskOf(sys).wal.records) && (sys.Up? ==> EngineInv(sys.engine))
  }

  lemma TableAfterAppend(records: seq<WalRecord>, r: WalRecord)
    ensures TableOf(records + [r]) == TableOf(records)[r.txId := SnapOf(r)]
  {
    assert (records + [r])[..|records|] == records;
  }

  lemma CommitKeeps(hash: HashFunction, flow: Flow, e: Engine, r: WalRecord, entry: Option<IndexEntry>, f: Faults)
    requires !flow.Stepping? ==> entry.Some?
    requires EngineInv(e) && Ready(e) && r.seqNo == e.mem.nextSeq + 1
    ensures var e' := Commit(hash, flow, e, r, entry, f).engine;
      Ordered(e'.disk.wal.records) && (!Misreported(f) ==> EngineInv(e'))
  {
    hide Commit, TableOf, SnapOf;
    CommitEnds(hash, flow, e, r, entry, f);
    var e' := Commit(hash, flow, e, r, entry, f).engine;
    var before, after := e.disk.wal.records, e'.disk.wal.records;
    if !e'.mem.safeMode && !Misreported(f) {
      if m: nat :| m <= e.mem.nextSeq && Hole(e.disk.wal, m) {
        HoleStays(e, r, f, e', m);
      } else if after == before && f.walIo.Completed? {
        assert Hole(e'.disk.wal, r.seqNo);
      } else {
        TableAfterAppend(before, r);
      }
    }
  }

  /** Where no revert is reached, its fate does not matter. */
  lemma RevertUnused(hash: HashFunction, flow: Flow, e: Engine, r: WalRecord, entry: Option<IndexEntry>, f: Faults)
    requires !flow.Stepping? ==> entry.Some?
    requires !Commit(hash, flow, e, r, entry, f).engine.mem.safeMode && !RevertFails(flow, entry, f)
    ensures Commit(hash, flow, e, r, entry, f).engine == Commit(hash, flow, e, r, entry, f.(revertIo := Completed)).engine
  {
    hide WalRun, EventRun, InsertedFiles, RemovedFiles, SnapOf;
  }

  /** A legal commit that leaves the engine in service and misleads it in nothing leaves memory in step. */
  lemma NotMisledIsInStep(hash: HashFunction, flow: Flow, e: Engine, r: WalRecord, entry: Option<IndexEntry>, f: Faults)
    requires !flow.Stepping? ==> entry.Some?
    requires EngineInv(e) && Ready(e) && r.seqNo == e.mem.nextSeq + 1
    requires !Commit(hash, flow, e, r, entry, f).engine.mem.safeMode && !Misled(flow, entry, f)
    ensures EngineInv(Commit(hash, flow, e, r, entry, f).engine)
  {
    hide Commit, EngineInv, Ready;
    if RevertFails(flow, entry, f) {
      CommitKeeps(hash, flow, e, r, entry, f);
    } else {
      RevertUnused(hash, flow, e, r, entry, f);
      CommitKeeps(hash, flow, e, r, entry, f.(revertIo := Completed));
    }
  }

  // ----- Steps keep the invariant -----

  /** What a call can do to log and memory, whichever branch it takes. */
  lemma CallKeeps(hash: HashFunction, e: Engine, call: Call, env: Env)
    requires EngineInv(e)
    ensures var e' := Perform(hash, e, call, env).engine;
      Ordered(e'.disk.wal.records) && (!MisledIn(WorkFor(e, call, env), env.faults) ==> EngineInv(e'))
  {
    hide Perform, WorkFor, Commit, TableOf, Ordered, Misled;
    CallDoesItsWork(hash, e, call, env, env.faults);
    WorkIsFresh(e, call, env);
    match WorkFor(e, call, env) {
      case NoWork =>
      case Committing(flow, r, entry) =>
        CommitKeeps(hash, flow, e, r, entry, env.faults);
        if !Misled(flow, entry, env.faults) && !Commit(hash, flow, e, r, entry, env.faults).engine.mem.safeMode {
          NotMisledIsInStep(hash, flow, e, r, entry, env.faults);
        }
      case WritingBack(op, entry) =>
    }
  }

  /** Whatever is misreported: numbers in order, and a live engine hands out numbers above them all. */
  predicate InOrder(e: Engine) {
    Ordered(e.disk.wal.records) && (!e.mem.safeMode ==> Below(e.disk.wal.records, e.mem.nextSeq))
  }

  /** No call takes away a record that was there before it, or leaves the numbers out of order. */
  lemma CallGrowsInOrder(hash: HashFunction, e: Engine, call: Call, env: Env)
    requires InOrder(e)
    ensures var e' := Perform(hash, e, call, env).engine;
      InOrder(e') && e.disk.wal.records <= e'.disk.wal.records
  {
    hide Perform, WorkFor, Commit, SnapOf;
    CallDoesItsWork(hash, e, call, env, env.faults);
    WorkIsFresh(e, call, env);
    match WorkFor(e, call, env) {
      case NoWork =>
      case Committing(flow, r, entry) => CommitEnds(hash, flow, e, r, entry, env.faults);
      case WritingBack(op, entry) =>
        WriteBackLeavesLog(hash, e, op, entry, env.faults);
        WriteBackInMode(hash, e, op, entry, env.faults);
    }
  }

  lemma WriteBackInMode(hash: HashFunction, e: Engine, op: Operation, entry: IndexEntry, f: Faults)
    ensures e.mem.safeMode ==> ReplayFound(hash, e, op, entry, f).engine.mem.safeMode
  {
    hide EventRun, InsertedFiles;
  }

  /** A commit takes the next number, and only outside safe mode. */
  lemma WorkIsFresh(e: Engine, call: Call, env: Env)
    ensures var w := WorkFor(e, call, env);
      w.Committing? ==> !e.mem.safeMode && w.record.seqNo == e.mem.nextSeq + 1
  {
    hide LookupIn;
  }

  lemma OpenKeeps(hash: HashFunction, disk: Disk, newLogId: string)
    requires Named(hash, disk.index) && Ordered(disk.wal.records)
    ensures EngineInv(Opened(hash, disk, newLogId))
  {
    hide TableOf, Loaded, Merged, SemanticsOk, EventsMatch;
    var e := Opened(hash, disk, newLogId);
    if !e.mem.safeMode {
      RecoveredExactly(disk.wal);
      MaxOfNumbered(disk.wal.records);
    }
  }

  /** No call served in this state is misled by the writes it gets to. */
  predicate NotMisledBy(sys: System, a: Action) {
    a.Serve? && sys.Up? ==> !MisledIn(WorkFor(sys.engine, a.call, a.env), a.env.faults)
  }

  ghost predicate NeverMisled(hash: HashFunction, actions: seq<Action>) {
    forall i :: 0 <= i < |actions| ==> NotMisledBy(FromFresh(hash, actions[..i]), actions[i])
  }

  lemma NeverMisledPrefix(hash: HashFunction, actions: seq<Action>)
    requires actions != [] && NeverMisled(hash, actions)
    ensures var n := |actions| - 1;
      NeverMisled(hash, actions[..n]) && NotMisledBy(FromFresh(hash, actions[..n]), actions[n])
  {
    hide NotMisledBy;
    var init := actions[..|actions| - 1];
    forall i | 0 <= i < |init| ensures NotMisledBy(FromFresh(hash, init[..i]), init[i]) {
      assert init[..i] == actions[..i];
    }
  }

  lemma StepKeeps(hash: HashFunction, sys: System, a: Action)
    requires Named(hash, DiskOf(sys).index) && SystemInv(sys)
    requires NotMisledBy(sys, a)
    ensures SystemInv(Step(hash, sys, a))
  {
    hide Perform, Opened, CrashDisk, InStep, WorkFor, MisledIn;
    match a {
      case Stop =>
      case Start(newLogId) =>
        if sys.Down? {
          OpenKeeps(hash, sys.disk, newLogId);
          assert DiskOf(Step(hash, sys, a)).wal.records == sys.disk.wal.records by {
            OpenLeavesLog(hash, sys.disk, newLogId);
          }
        }
      case Serve(call, env) =>
        if sys.Up? {
          CallKeeps(hash, sys.engine, call, env);
        }
      case CrashIn(call, env, after) =>
        if sys.Up? {
          var f := CrashDiskIsFaultDisk(hash, sys.engine, call, env, after);
          CallKeeps(hash, sys.engine, call, env.(faults := f));
        }
    }
  }

  lemma OpenLeavesLog(hash: HashFunction, disk: Disk, newLogId: string)
    requires Named(hash, disk.index)
    ensures Opened(hash, disk, newLogId).disk.wal == disk.wal
  {
  }

  lemma {:induction false} RunsKeepInvariant(hash: HashFunction, actions: seq<Action>)
    requires NeverMisled(hash, actions)
    ensures SystemInv(FromFresh(hash, actions))
  {
    hide Step, SystemInv, NeverMisled, NotMisledBy;
    if actions == [] {
      FreshInv();
    } else {
      NeverMisledPrefix(hash, actions);
      RunsKeepInvariant(hash, actions[..|actions| - 1]);
      StepKeeps(hash, FromFresh(hash, actions[..|actions| - 1]), actions[|actions| - 1]);
    }
  }

  lemma FreshInv()
    ensures SystemInv(Down(FRESH_DISK))
  {
  }

  // ----- Crashes reopen to before, after or safe mode -----

  /** The table a call leaves when nothing fails. */
  function TableAfter(hash: HashFunction, e: Engine, call: Call, env: Env): TxTable {
    Perform(hash, e, call, env.(faults := NO_FAULTS)).engine.mem.txs
  }

  lemma CompleteCommit(hash: HashFunction, flow: Flow, e: Engine, r: WalRecord, entry: Option<IndexEntry>)
    requires !flow.Stepping? ==> entry.Some?
    requires !e.mem.safeMode
    ensures Commit(hash, flow, e, r, entry, NO_FAULTS).engine.mem.txs == e.mem.txs[r.txId := SnapOf(r)]
    ensures Commit(hash, flow, e, r, entry, NO_FAULTS).reply.Ok?
  {
    hide WalRun, EventRun, InsertedFiles, SnapOf;
  }

  /** Reopening finds a hole, or exactly the table of the records on disk. */
  lemma OpenedTable(hash: HashFunction, disk: Disk, newLogId: string, limit: nat)
    requires Named(hash, disk.index)
    ensures var o := Opened(hash, disk, newLogId);
      o.mem.safeMode || (!Broken(disk.wal, limit) && o.mem.txs == TableOf(disk.wal.records))
  {
    hide TableOf, Loaded, Merged, SemanticsOk, EventsMatch, Intact;
    if m: nat :| m <= limit && Hole(disk.wal, m) {
      HoleNeverRecovers(disk.wal, m);
    }
  }

  lemma FaultedCallReopens(hash: HashFunction, e: Engine, call: Call, env: Env, f: Faults, newLogId: string)
    requires Named(hash, e.disk.index) && EngineInv(e) && !e.mem.safeMode
    ensures var disk := Perform(hash, e, call, env.(faults := f)).engine.disk;
      && Named(hash, disk.index)
      && var o := Opened(hash, disk, newLogId);
      o.mem.safeMode || o.mem.txs == e.mem.txs || o.mem.txs == TableAfter(hash, e, call, env)
  {
    hide Perform, WorkFor, Commit, ReplayFound, TableOf, SnapOf, Opened;
    PerformKeepsNames(hash, e, call, env.(faults := f));
    CallDoesItsWork(hash, e, call, env, f);
    CallDoesItsWork(hash, e, call, env, NO_FAULTS);
    WorkIsFresh(e, call, env);
    var disk := Perform(hash, e, call, env.(faults := f)).engine.disk;
    OpenedTable(hash, disk, newLogId, e.mem.nextSeq);
    match WorkFor(e, call, env) {
      case NoWork =>
      case Committing(flow, r, entry) =>
        CommitEnds(hash, flow, e, r, entry, f);
        CompleteCommit(hash, flow, e, r, entry);
        if m: nat :| m <= e.mem.nextSeq && Hole(e.disk.wal, m) {
          HoleStays(e, r, f, Commit(hash, flow, e, r, entry, f).engine, m);
          assert Broken(disk.wal, e.mem.nextSeq);
        } else {
          TableAfterAppend(e.disk.wal.records, r);
        }
      case WritingBack(op, entry) =>
        WriteBackLeavesLog(hash, e, op, entry, f);
    }
  }

  lemma WriteBackLeavesLog(hash: HashFunction, e: Engine, op: Operation, entry: IndexEntry, f: Faults)
    ensures var e' := ReplayFound(hash, e, op, entry, f).engine;
      e'.disk.wal == e.disk.wal && e'.mem.txs == e.mem.txs && e'.mem.nextSeq == e.mem.nextSeq
  {
    hide EventRun, InsertedFiles;
  }

  /**
   A crash between any two disk steps of any call, in any run in which no earlier call was misled
   by a write it got to, reopens to the table from before the call, to the table the complete call leaves,
   or to safe mode.
   */
  lemma CrashReopensBeforeOrAfter(hash: HashFunction, actions: seq<Action>, call: Call, env: Env, after: nat, newLogId: string)
    requires NeverMisled(hash, actions)
    requires var sys := FromFresh(hash, actions);
      sys.Up? && !sys.engine.mem.safeMode
    ensures var e := FromFresh(hash, actions).engine;
      && var crashed := Step(hash, FromFresh(hash, actions), CrashIn(call, env, after));
      && var reopened := Step(hash, crashed, Start(newLogId)).engine.mem;
      reopened.safeMode || reopened.txs == e.mem.txs || reopened.txs == TableAfter(hash, e, call, env)
  {
    hide Perform, Opened, TableOf, CrashDisk, EngineInv, Run, NeverMisled;
    RunsKeepInvariant(hash, actions);
    var e := FromFresh(hash, actions).engine;
    var f := CrashDiskIsFaultDisk(hash, e, call, env, after);
    FaultedCallReopens(hash, e, call, env, f, newLogId);
  }

  /** In such runs a restart never shows a table other than the one in memory. */
  lemma RestartKeepsTable(hash: HashFunction, actions: seq<Action>, newLogId: string)
    requires NeverMisled(hash, actions)
    requires var sys := FromFresh(hash, actions);
      sys.Up? && !sys.engine.mem.safeMode
    ensures var sys := FromFresh(hash, actions);
      && var reopened := Step(hash, Step(hash, sys, Stop), Start(newLogId)).engine.mem;
      reopened.safeMode || reopened.txs == sys.engine.mem.txs
  {
    hide Opened, TableOf, Run, NeverMisled;
    RunsKeepInvariant(hash, actions);
    var e := FromFresh(hash, actions).engine;
    OpenedTable(hash, e.disk, newLogId, e.mem.nextSeq);
  }

  // ----- What a caller is told -----

  lemma CommitOkTable(hash: HashFunction, flow: Flow, e: Engine, r: WalRecord, entry: Option<IndexEntry>, f: Faults)
    requires !flow.Stepping? ==> entry.Some?
    requires !e.mem.safeMode && Commit(hash, flow, e, r, entry, f).reply.Ok?
    ensures var mem := Commit(hash, flow, e, r, entry, f).engine.mem;
      mem.txs == e.mem.txs[r.txId := SnapOf(r)] && !mem.safeMode
  {
    hide WalRun, EventRun, InsertedFiles, RemoveIdempotency, SnapOf;
  }

  /** The state a step call asks for. */
  function Target(call: Call): TxState
    requires !call.Propose?
  {
    if call.Test? then Testing else if call.ApplyTx? then Applying else Probation
  }

  /**
   A step reported as done, under whatever faults, was the caller's own transaction, was allowed by
   the transition table, and moved exactly that transaction to exactly that state; an apply also
   found the base unmoved.
   */
  lemma SuccessfulStep(hash: HashFunction, e: Engine, call: Call, env: Env)
    requires !call.Propose? && WorkFor(e, call, env).Committing? && Perform(hash, e, call, env).reply.Ok?
    ensures call.txId in e.mem.txs
    ensures var o, snap := Perform(hash, e, call, env), e.mem.txs[call.txId];
      && Owns(snap, call.agentId, call.digest) && BrokerMayEnter(snap.state, Target(call))
      && (call.ApplyTx? ==> snap.identity.baseRevision == env.currentBase)
      && o.reply == Ok(StepReply(call.txId, Target(call)))
      && o.engine.mem.txs == e.mem.txs[call.txId := TxSnapshot(call.txId, Target(call), snap.identity)]
      && !o.engine.mem.safeMode
  {
    hide Commit, LookupIn;
    CallDoesItsWork(hash, e, call, env, env.faults);
    var Committing(flow, r, entry) := WorkFor(e, call, env);
    if Commit(hash, flow, e, r, entry, env.faults).reply.Ok? {
      CommitOkTable(hash, flow, e, r, entry, env.faults);
    }
  }

  /** A proposal reported as done added one Proposed transaction, owned by its caller, and nothing else. */
  lemma SuccessfulProposal(hash: HashFunction, e: Engine, call: Call, env: Env)
    requires call.Propose? && WorkFor(e, call, env).Committing? && Perform(hash, e, call, env).reply.Ok?
    ensures env.staged.Ok?
    ensures var o, staged := Perform(hash, e, call, env), env.staged.value;
      && o.reply == Ok(ProposeReply(env.freshTxId, staged.diff, staged.testPlan, staged.affectedResources, env.currentBase))
      && env.freshTxId in o.engine.mem.txs
      && var snap := o.engine.mem.txs[env.freshTxId];
      && snap.state.Proposed? && Owns(snap, call.agentId, call.digest) && snap.identity.baseRevision == env.currentBase
      && o.engine.mem.txs == e.mem.txs[env.freshTxId := snap] && !o.engine.mem.safeMode
  {
    hide Commit, LookupIn;
    CallDoesItsWork(hash, e, call, env, env.faults);
    var Committing(flow, r, entry) := WorkFor(e, call, env);
    if Commit(hash, flow, e, r, entry, env.faults).reply.Ok? {
      CommitOkTable(hash, flow, e, r, entry, env.faults);
    }
  }

  /** An apply refused for its base, having done its work, rejected exactly that transaction because the base had moved. */
  lemma RefusedApply(hash: HashFunction, e: Engine, call: Call, env: Env)
    requires call.ApplyTx? && WorkFor(e, call, env).Committing? && Perform(hash, e, call, env).reply == Err(BaseRevisionMoved)
    ensures call.txId in e.mem.txs
    ensures var o, snap := Perform(hash, e, call, env), e.mem.txs[call.txId];
      && Owns(snap, call.agentId, call.digest) && snap.identity.baseRevision != env.currentBase
      && o.engine.mem.txs == e.mem.txs[call.txId := TxSnapshot(call.txId, Rejected, snap.identity)]
  {
    hide Commit, LookupIn;
    CallDoesItsWork(hash, e, call, env, env.faults);
    var Committing(flow, r, entry) := WorkFor(e, call, env);
    CommitError(hash, flow, e, r, entry, env.faults);
    if Commit(hash, flow, e, r, entry, env.faults).reply.Ok? {
      CommitOkTable(hash, flow, e, r, entry, env.faults);
    }
  }

  lemma CommitError(hash: HashFunction, flow: Flow, e: Engine, r: WalRecord, entry: Option<IndexEntry>, f: Faults)
    requires !flow.Stepping? ==> entry.Some?
    ensures var o := Commit(hash, flow, e, r, entry, f);
      o.reply.Err? ==> o.reply.error == Storage || o.reply.error == SafeMode
  {
    hide WalRun, EventRun, InsertedFiles, RemoveIdempotency;
  }
}
