/**
 The broker's transaction engine as functions on its memory and its disk. Each call lists the
 primitive disk steps it takes, so that a storage error or a crash can fall between any two.
 */
module EngineModel {
  import opened Wrappers
  import opened TxStates
  import opened Wal
  import opened Events
  import opened Idempotency
  import opened Recovery

  // ----- State -----

  datatype Disk = Disk(wal: WalDisk, events: EventDisk, index: IndexDisk)

  const FRESH_DISK := Disk(EMPTY_WAL, EMPTY_EVENTS, map[])

  datatype Memory = Memory(
    txs: TxTable, nextSeq: nat, safeMode: bool, eventMeta: EventMeta, entries: map<IdemKey, IndexEntry>)

  datatype Engine = Engine(disk: Disk, mem: Memory)

  // ----- Disk steps -----

  datatype DiskStep = WalDo(walStep: WalStep) | EventDo(eventStep: EventStep) | IndexDo(indexStep: IndexStep)

  function Apply(hash: HashFunction, d: Disk, step: DiskStep): Disk {
    match step
    case WalDo(s) => d.(wal := WalApply(d.wal, s))
    case EventDo(s) => d.(events := EventApply(d.events, s))
    case IndexDo(s) => d.(index := IndexApply(hash, d.index, s))
  }

  function ApplyAll(hash: HashFunction, d: Disk, steps: seq<DiskStep>): Disk {
    if steps == [] then d else Apply(hash, ApplyAll(hash, d, steps[..|steps| - 1]), steps[|steps| - 1])
  }

  function Done<T>(steps: seq<T>, io: Io): seq<T> {
    steps[..StepsDone(io, |steps|)]
  }

  function WalTrace(steps: seq<WalStep>): seq<DiskStep> {
    seq(|steps|, i requires 0 <= i < |steps| => WalDo(steps[i]))
  }

  function EventTrace(steps: seq<EventStep>): seq<DiskStep> {
    seq(|steps|, i requires 0 <= i < |steps| => EventDo(steps[i]))
  }

  function InsertTrace(e: IndexEntry): seq<DiskStep> {
    [IndexDo(WriteEntryTemp), IndexDo(RenameEntry(e))]
  }

  // ----- Calls -----

  datatype EngineError =
    | SafeMode | NotFound | InvalidTransition | IdempotencyConflict | BaseRevisionMoved | OwnershipMismatch
    | WatchdogAuthorityRequired | ProposeRejected(reason: string) | Storage

  datatype Reply =
    | ProposeReply(proposedTx: string, diff: string, testPlan: TestPlan, affectedResources: seq<string>, baseRevision: BaseRevision)
    | StepReply(txId: string, state: TxState)

  /** `fingerprint` stands for the text of the whole parameters. */
  datatype Call =
    | Propose(agentId: string, digest: Digest, key: string, fingerprint: string)
    | Test(agentId: string, digest: Digest, txId: string)
    | ApplyTx(agentId: string, digest: Digest, txId: string, key: string, fingerprint: string)
    | Advance(agentId: string, digest: Digest, txId: string)

  datatype Staged = Staged(diff: string, testPlan: TestPlan, affectedResources: seq<string>, candidateClosure: Option<string>)

  /** The fate of each write a call may make. */
  datatype Faults = Faults(walIo: Io, indexIo: Io, eventIo: Io, revertIo: Io, removeIo: Io)

  const NO_FAULTS := Faults(Completed, Completed, Completed, Completed, Completed)

  /** What the adapter, the id generator and the directory listing answer during a call. */
  datatype Env = Env(
    freshTxId: string, currentBase: BaseRevision, staged: Result<Staged, string>, walReadable: bool, faults: Faults)

  datatype Outcome<T> = Outcome(engine: Engine, reply: Result<T, EngineError>, trace: seq<DiskStep>)

  function Refused<T>(e: Engine, error: EngineError): Outcome<T> {
    Outcome(e, Err(error), [])
  }

  // ----- The single writes -----

  function RecordFor(
    e: Engine, txId: string, state: TxState, entry: Option<IndexEntry>, identity: Identity, result: StoredResult): WalRecord
  {
    WalRecord(SUPPORTED_RECORD_VERSION, e.mem.nextSeq + 1, txId, state,
              if entry.Some? then Some(entry.value.key.key) else None,
              if entry.Some? then Some(entry.value.fingerprint) else None,
              identity, None, Some(result))
  }

  /** The number is taken before the write and stays taken if it fails; the table follows only a complete write. */
  function PersistTransition(e: Engine, r: WalRecord, io: Io): Outcome<()> {
    if e.mem.safeMode then Refused(e, SafeMode)
    else
      var disk := e.disk.(wal := WalRun(e.disk.wal, AppendSteps(r), io));
      var mem := e.mem.(nextSeq := r.seqNo);
      var trace := WalTrace(Done(AppendSteps(r), io));
      if io.FailedAfter? then Outcome(Engine(disk, mem), Err(Storage), trace)
      else Outcome(Engine(disk, mem.(txs := mem.txs[r.txId := SnapOf(r)])), Ok(()), trace)
  }

  function AppendStateEvent(e: Engine, txId: string, state: TxState, io: Io): Outcome<()> {
    var stored := StoredEvent(e.mem.eventMeta.nextSeq, TX_STATE_KIND, TxStatePayload(txId, state));
    var meta := e.mem.eventMeta.(nextSeq := e.mem.eventMeta.nextSeq + 1);
    var steps := EventSteps(stored, meta);
    var disk := e.disk.(events := EventRun(e.disk.events, steps, io));
    var mem := e.mem.(eventMeta := meta, safeMode := e.mem.safeMode || io.FailedAfter?);
    Outcome(Engine(disk, mem), if io.Completed? then Ok(()) else Err(SafeMode), EventTrace(Done(steps, io)))
  }

  function RecordIdempotency(hash: HashFunction, e: Engine, entry: IndexEntry, io: Io): Outcome<()> {
    var disk := e.disk.(index := InsertedFiles(hash, e.disk.index, entry, io));
    var trace := Done(InsertTrace(entry), io);
    if io.FailedAfter? then Outcome(Engine(disk, e.mem), Err(Storage), trace)
    else Outcome(Engine(disk, e.mem.(entries := e.mem.entries[entry.key := entry])), Ok(()), trace)
  }

  function RemoveIdempotency(hash: HashFunction, e: Engine, key: IdemKey, io: Io): Outcome<()> {
    if StepsDone(io, 1) == 0 then Refused(e, Storage)
    else
      var disk := e.disk.(index := RemovedFiles(hash, e.disk.index, key, io));
      Outcome(Engine(disk, e.mem.(entries := e.mem.entries - {key})), Ok(()), [IndexDo(RemoveEntry(key))])
  }

  function Previous(seqNo: nat): nat {
    if seqNo == 0 then 0 else seqNo - 1
  }

  /** Takes a record back and enters safe mode; when the revert itself fails, neither the table nor the mode changes. */
  function RollbackTransition(e: Engine, txId: string, seqNo: nat, io: Io): Outcome<()> {
    var wal := WalRun(e.disk.wal, RevertSteps(seqNo), io);
    var trace := WalTrace(Done(RevertSteps(seqNo), io));
    var disk := e.disk.(wal := wal);
    if !RevertSucceeds(seqNo, io) then Outcome(Engine(disk, e.mem), Err(Storage), trace)
    else
      var mem := e.mem.(txs := e.mem.txs - {txId}, nextSeq := Previous(seqNo), safeMode := true);
      Outcome(Engine(disk, mem), Ok(()), trace)
  }

  // ----- Committing a transition -----

  datatype Flow = Proposing | Stepping | Refusing

  /** Rolls back, then drops the index entry (best effort), then reports the error that caused it. */
  function Undo(
    hash: HashFunction, v: Outcome<()>, r: WalRecord, key: Option<IdemKey>, error: EngineError, f: Faults): Outcome<()>
  {
    var b := RollbackTransition(v.engine, r.txId, r.seqNo, f.revertIo);
    if b.reply.Err? then b.(trace := v.trace + b.trace)
    else if key.None? then Outcome(b.engine, Err(error), v.trace + b.trace)
    else
      var c := RemoveIdempotency(hash, b.engine, key.value, f.removeIo);
      Outcome(c.engine, Err(error), v.trace + b.trace + c.trace)
  }

  function EntryKey(entry: Option<IndexEntry>): Option<IdemKey> {
    if entry.Some? then Some(entry.value.key) else None
  }

  /** Index entry (if any), then event: the tail of a proposal and of a plain transition. */
  function IndexThenEvent(
    hash: HashFunction, flow: Flow, p: Outcome<()>, r: WalRecord, entry: Option<IndexEntry>, f: Faults): Outcome<()>
  {
    var i := if entry.None? then Outcome(p.engine, Ok(()), [])
             else RecordIdempotency(hash, p.engine, entry.value, f.indexIo);
    var i' := i.(trace := p.trace + i.trace);
    if i.reply.Err? then
      if flow.Proposing? then i' else Undo(hash, i', r, None, Storage, f)
    else
      var v := AppendStateEvent(i.engine, r.txId, r.state, f.eventIo);
      var v' := v.(trace := i'.trace + v.trace);
      if v.reply.Err? then Undo(hash, v', r, EntryKey(entry), SafeMode, f) else v'
  }

  /** Event, then index entry: the tail of a moved-base refusal, which restores the old snapshot when undone. */
  function EventThenIndex(
    hash: HashFunction, before: TxTable, p: Outcome<()>, r: WalRecord, entry: IndexEntry, f: Faults): Outcome<()>
  {
    var v := AppendStateEvent(p.engine, r.txId, r.state, f.eventIo);
    if v.reply.Err? then
      var wal := WalRun(v.engine.disk.wal, RevertSteps(r.seqNo), f.revertIo);
      var trace := p.trace + v.trace + WalTrace(Done(RevertSteps(r.seqNo), f.revertIo));
      var disk := v.engine.disk.(wal := wal);
      if !RevertSucceeds(r.seqNo, f.revertIo) then Outcome(Engine(disk, v.engine.mem), Err(Storage), trace)
      else Outcome(Engine(disk, v.engine.mem.(nextSeq := Previous(r.seqNo), txs := before)), Err(SafeMode), trace)
    else
      var i := RecordIdempotency(hash, v.engine, entry, f.indexIo);
      i.(trace := p.trace + v.trace + i.trace)
  }

  function Commit(hash: HashFunction, flow: Flow, e: Engine, r: WalRecord, entry: Option<IndexEntry>, f: Faults): Outcome<()>
    requires !flow.Stepping? ==> entry.Some?
  {
    var p := PersistTransition(e, r, f.walIo);
    if p.reply.Err? then p
    else if flow.Refusing? then EventThenIndex(hash, e.mem.txs, p, r, entry.value, f)
    else IndexThenEvent(hash, flow, p, r, entry, f)
  }

  // ----- Idempotent replies -----

  function ReplyOf(result: StoredResult): Reply {
    match result
    case ProposeResult(tx, diff, plan, affected, base, _) => ProposeReply(tx, diff, plan, affected, base)
    case StepResult(tx, state) => StepReply(tx, state)
  }

  function Replayed(op: Operation, result: StoredResult): Result<Reply, EngineError> {
    match op
    case ConfigPropose => if result.ProposeResult? then Ok(ReplyOf(result)) else Err(IdempotencyConflict)
    case TxApply =>
      if !result.StepResult? then Err(IdempotencyConflict)
      else if result.state.Rejected? then Err(BaseRevisionMoved)
      else Ok(ReplyOf(result))
  }

  datatype Lookup = Found(entry: IndexEntry) | Conflict | Missing

  predicate StateFor(op: Operation, state: TxState) {
    match op
    case ConfigPropose => state.Proposed?
    case TxApply => state.Applying? || state.Rejected?
  }

  /** The record carries the binding `key`. */
  predicate Carries(r: WalRecord, key: IdemKey) {
    r.idemKey == Some(key.key) && r.identity.agentId == key.agentId && StateFor(key.op, r.state)
  }

  /** `lookup_idempotency_from_wal`: the newest record that carries the key decides. */
  function LookupIn(records: seq<WalRecord>, key: IdemKey, fingerprint: string): Lookup {
    if records == [] then Missing
    else
      var r := records[|records| - 1];
      if !Carries(r, key) then LookupIn(records[..|records| - 1], key, fingerprint)
      else if r.fingerprint.GetOr("") != fingerprint then Conflict
      else if r.result.None? then LookupIn(records[..|records| - 1], key, fingerprint)
      else Found(IndexEntry(key, r.txId, fingerprint, r.result.value))
  }

  function LookupFromWal(e: Engine, key: IdemKey, fingerprint: string, env: Env): Lookup {
    if env.walReadable then LookupIn(e.disk.wal.records, key, fingerprint) else Missing
  }

  // ----- The operations -----

  function Finish(o: Outcome<()>, reply: Result<Reply, EngineError>): Outcome<Reply> {
    Outcome(o.engine, if o.reply.Err? then Err(o.reply.error) else reply, o.trace)
  }

  function ProposeIdentity(call: Call, env: Env): Identity
    requires call.Propose? && env.staged.Ok?
  {
    Identity(call.agentId, call.digest, env.currentBase, [D], env.staged.value.diff, env.staged.value.affectedResources)
  }

  function ProposedResult(env: Env): StoredResult
    requires env.staged.Ok?
  {
    var s := env.staged.value;
    ProposeResult(env.freshTxId, s.diff, s.testPlan, s.affectedResources, env.currentBase, s.candidateClosure)
  }

  function KeyOf(call: Call): IdemKey
    requires call.Propose? || call.ApplyTx?
  {
    IdemKey(call.agentId, if call.Propose? then ConfigPropose else TxApply, call.key)
  }

  /** A key found only in the log is written back to the index; a proposal's event is appended again. */
  function ReplayFound(hash: HashFunction, e: Engine, op: Operation, entry: IndexEntry, f: Faults): Outcome<Reply> {
    var reply := Replayed(op, entry.result);
    match op
    case TxApply => Finish(RecordIdempotency(hash, e, entry, f.indexIo), reply)
    case ConfigPropose =>
      if reply.Err? then Refused(e, reply.error)
      else
        var i := RecordIdempotency(hash, e, entry, f.indexIo);
        if i.reply.Err? then Finish(i, reply)
        else
          var v := AppendStateEvent(i.engine, reply.value.proposedTx, Proposed, f.eventIo);
          Finish(v.(trace := i.trace + v.trace), reply)
  }

  function ConfigProposeCall(hash: HashFunction, e: Engine, call: Call, env: Env): Outcome<Reply>
    requires call.Propose?
  {
    var key := KeyOf(call);
    if e.mem.safeMode then Refused(e, SafeMode)
    else if key in e.mem.entries then
      if e.mem.entries[key].fingerprint != call.fingerprint then Refused(e, IdempotencyConflict)
      else Outcome(e, Replayed(ConfigPropose, e.mem.entries[key].result), [])
    else
      match LookupFromWal(e, key, call.fingerprint, env)
      case Conflict => Refused(e, IdempotencyConflict)
      case Found(entry) => ReplayFound(hash, e, ConfigPropose, entry, env.faults)
      case Missing =>
        if env.staged.Err? then Refused(e, ProposeRejected(env.staged.error))
        else
          var result := ProposedResult(env);
          var entry := Some(IndexEntry(key, env.freshTxId, call.fingerprint, result));
          var r := RecordFor(e, env.freshTxId, Proposed, entry, ProposeIdentity(call, env), result);
          Finish(Commit(hash, Proposing, e, r, entry, env.faults), Ok(ReplyOf(result)))
  }

  predicate Owns(snap: TxSnapshot, agentId: string, digest: Digest) {
    snap.identity.agentId == agentId && snap.identity.manifestDigest == digest
  }

  /** `transition`, with the key and fingerprint to bind, if any. */
  function Transition(
    hash: HashFunction, e: Engine, call: Call, target: TxState, binding: Option<(IdemKey, string)>, env: Env): Outcome<Reply>
    requires !call.Propose?
  {
    if call.txId !in e.mem.txs then Refused(e, NotFound)
    else
      var snap := e.mem.txs[call.txId];
      if !Owns(snap, call.agentId, call.digest) then Refused(e, OwnershipMismatch)
      else if !BrokerMayEnter(snap.state, target) then Refused(e, InvalidTransition)
      else
        var result := StepResult(call.txId, target);
        var entry := if binding.None? then None else Some(IndexEntry(binding.value.0, call.txId, binding.value.1, result));
        var r := RecordFor(e, call.txId, target, entry, snap.identity, result);
        Finish(Commit(hash, Stepping, e, r, entry, env.faults), Ok(ReplyOf(result)))
  }

  function TxTestCall(hash: HashFunction, e: Engine, call: Call, env: Env): Outcome<Reply>
    requires call.Test?
  {
    if e.mem.safeMode then Refused(e, SafeMode) else Transition(hash, e, call, Testing, None, env)
  }

  /** A refusal is recorded without asking the transition table. */
  function RefuseMovedBase(hash: HashFunction, e: Engine, call: Call, env: Env): Outcome<Reply>
    requires call.ApplyTx? && call.txId in e.mem.txs
  {
    var snap := e.mem.txs[call.txId];
    var result := StepResult(call.txId, Rejected);
    var entry := Some(IndexEntry(KeyOf(call), call.txId, call.fingerprint, result));
    var r := RecordFor(e, call.txId, Rejected, entry, snap.identity, result);
    Finish(Commit(hash, Refusing, e, r, entry, env.faults), Err(BaseRevisionMoved))
  }

  function TxApplyCall(hash: HashFunction, e: Engine, call: Call, env: Env): Outcome<Reply>
    requires call.ApplyTx?
  {
    var key := KeyOf(call);
    if e.mem.safeMode then Refused(e, SafeMode)
    else if key in e.mem.entries then
      if e.mem.entries[key].fingerprint != call.fingerprint then Refused(e, IdempotencyConflict)
      else Outcome(e, Replayed(TxApply, e.mem.entries[key].result), [])
    else
      match LookupFromWal(e, key, call.fingerprint, env)
      case Conflict => Refused(e, IdempotencyConflict)
      case Found(entry) => ReplayFound(hash, e, TxApply, entry, env.faults)
      case Missing =>
        if call.txId !in e.mem.txs then Refused(e, NotFound)
        else
          var snap := e.mem.txs[call.txId];
          if !Owns(snap, call.agentId, call.digest) then Refused(e, OwnershipMismatch)
          else if snap.identity.baseRevision != env.currentBase then RefuseMovedBase(hash, e, call, env)
          else Transition(hash, e, call, Applying, Some((key, call.fingerprint)), env)
  }

  function AdvanceCall(hash: HashFunction, e: Engine, call: Call, env: Env): Outcome<Reply>
    requires call.Advance?
  {
    if e.mem.safeMode then Refused(e, SafeMode)
    else if call.txId !in e.mem.txs then Refused(e, NotFound)
    else if e.mem.txs[call.txId].state.Probation? then Refused(e, WatchdogAuthorityRequired)
    else Transition(hash, e, call, Probation, None, env)
  }

  function Perform(hash: HashFunction, e: Engine, call: Call, env: Env): Outcome<Reply> {
    match call
    case Propose(_, _, _, _) => ConfigProposeCall(hash, e, call, env)
    case Test(_, _, _) => TxTestCall(hash, e, call, env)
    case ApplyTx(_, _, _, _, _) => TxApplyCall(hash, e, call, env)
    case Advance(_, _, _) => AdvanceCall(hash, e, call, env)
  }

  // ----- Opening -----

  ghost predicate AcceptedOnOpen(disk: Disk, nextEvent: nat) {
    && Recovered(disk.wal).Some?
    && Intact(disk.events, nextEvent)
    && SemanticsOk(Recovered(disk.wal).value)
    && EventsMatch(Recovered(disk.wal).value, disk.events.lines)
  }

  /** `open_owned`, given what was read of the index: anything ambiguous is safe mode, with an empty table. */
  ghost function OpenedWith(disk: Disk, newLogId: string, loaded: map<IdemKey, IndexEntry>): Engine {
    var d := disk.(events := OpenedEvents(disk.events, newLogId));
    var meta := d.events.meta.value;
    var records := Recovered(d.wal).GetOr([]);
    var entries := Merged(loaded, records);
    if AcceptedOnOpen(d, meta.nextSeq) then Engine(d, Memory(TableOf(records), MaxSeq(records), false, meta, entries))
    else Engine(d, Memory(map[], 0, true, meta, entries))
  }

  /** The same on a disk whose index files bear their own names, as every disk the engine wrote does. */
  ghost function Opened(hash: HashFunction, disk: Disk, newLogId: string): Engine
    requires Named(hash, disk.index)
  {
    OpenedWith(disk, newLogId, Loaded(hash, disk.index))
  }
}
