/**
 A call's trace of primitive disk steps: applying it yields the call's disk, and cutting it short,
 as a crash does, leaves the disk of the same call under some storage fault.
 */
module EngineTraces {
  import opened Wrappers
  import opened Wal
  import opened Events
  import opened Idempotency
  import opened Recovery
  import opened EngineModel

  // ----- Traces compose -----

  lemma {:induction false} ApplyConcat(hash: HashFunction, d: Disk, a: seq<DiskStep>, b: seq<DiskStep>)
    ensures ApplyAll(hash, d, a + b) == ApplyAll(hash, ApplyAll(hash, d, a), b)
  {
    if b == [] {
      assert a + b == a;
    } else {
      ApplyConcat(hash, d, a, b[..|b| - 1]);
      assert (a + b)[..|a + b| - 1] == a + b[..|b| - 1];
    }
  }

  lemma {:induction false} WalTraceApplies(hash: HashFunction, d: Disk, steps: seq<WalStep>)
    ensures ApplyAll(hash, d, WalTrace(steps)) == d.(wal := WalApplyAll(d.wal, steps))
  {
    if steps != [] {
      var init := steps[..|steps| - 1];
      WalTraceApplies(hash, d, init);
      assert WalTrace(steps)[..|steps| - 1] == WalTrace(init);
    }
  }

  lemma {:induction false} EventTraceApplies(hash: HashFunction, d: Disk, steps: seq<EventStep>)
    ensures ApplyAll(hash, d, EventTrace(steps)) == d.(events := EventApplyAll(d.events, steps))
  {
    if steps != [] {
      var init := steps[..|steps| - 1];
      EventTraceApplies(hash, d, init);
      assert EventTrace(steps)[..|steps| - 1] == EventTrace(init);
    }
  }

  /** The trace leads from disk `d` to the outcome's disk. */
  ghost predicate Leads<T>(hash: HashFunction, d: Disk, o: Outcome<T>) {
    o.engine.disk == ApplyAll(hash, d, o.trace)
  }

  lemma PersistLeads(hash: HashFunction, e: Engine, r: WalRecord, io: Io)
    ensures Leads(hash, e.disk, PersistTransition(e, r, io))
  {
    WalTraceApplies(hash, e.disk, Done(AppendSteps(r), io));
  }

  lemma EventLeads(hash: HashFunction, e: Engine, txId: string, state: TxStates.TxState, io: Io)
    ensures Leads(hash, e.disk, AppendStateEvent(e, txId, state, io))
  {
    var stored := StoredEvent(e.mem.eventMeta.nextSeq, TX_STATE_KIND, TxStatePayload(txId, state));
    var meta := e.mem.eventMeta.(nextSeq := e.mem.eventMeta.nextSeq + 1);
    EventTraceApplies(hash, e.disk, Done(EventSteps(stored, meta), io));
  }

  lemma IndexLeads(hash: HashFunction, e: Engine, entry: IndexEntry, io: Io)
    ensures Leads(hash, e.disk, RecordIdempotency(hash, e, entry, io))
  {
    var steps := InsertTrace(entry);
    assert ApplyAll(hash, e.disk, steps[..0]) == e.disk;
    assert steps[..1][..0] == steps[..0] && ApplyAll(hash, e.disk, steps[..1]) == e.disk;
    assert steps[..2][..1] == steps[..1];
  }

  lemma RemoveLeads(hash: HashFunction, e: Engine, key: IdemKey, io: Io)
    ensures Leads(hash, e.disk, RemoveIdempotency(hash, e, key, io))
  {
    var steps := [IndexDo(RemoveEntry(key))];
    assert ApplyAll(hash, e.disk, steps[..0]) == e.disk;
    assert steps[..1][..0] == steps[..0];
  }

  lemma RollbackLeads(hash: HashFunction, e: Engine, txId: string, seqNo: nat, io: Io)
    ensures Leads(hash, e.disk, RollbackTransition(e, txId, seqNo, io))
  {
    WalTraceApplies(hash, e.disk, Done(RevertSteps(seqNo), io));
  }

  lemma UndoLeads(hash: HashFunction, d: Disk, v: Outcome<()>, r: WalRecord, key: Option<IdemKey>, error: EngineError, f: Faults)
    requires Leads(hash, d, v)
    ensures Leads(hash, d, Undo(hash, v, r, key, error, f))
  {
    hide RollbackTransition, RemoveIdempotency, ApplyAll;
    RollbackLeads(hash, v.engine, r.txId, r.seqNo, f.revertIo);
    var b := RollbackTransition(v.engine, r.txId, r.seqNo, f.revertIo);
    ApplyConcat(hash, d, v.trace, b.trace);
    if b.reply.Ok? && key.Some? {
      RemoveLeads(hash, b.engine, key.value, f.removeIo);
      var c := RemoveIdempotency(hash, b.engine, key.value, f.removeIo);
      ApplyConcat(hash, d, v.trace + b.trace, c.trace);
    }
  }

  lemma IndexThenEventLeads(
    hash: HashFunction, d: Disk, flow: Flow, p: Outcome<()>, r: WalRecord, entry: Option<IndexEntry>, f: Faults)
    requires Leads(hash, d, p)
    ensures Leads(hash, d, IndexThenEvent(hash, flow, p, r, entry, f))
  {
    hide RecordIdempotency, AppendStateEvent, Undo, ApplyAll;
    var i := if entry.None? then Outcome(p.engine, Ok(()), []) else RecordIdempotency(hash, p.engine, entry.value, f.indexIo);
    var i' := i.(trace := p.trace + i.trace);
    if entry.Some? {
      IndexLeads(hash, p.engine, entry.value, f.indexIo);
      ApplyConcat(hash, d, p.trace, i.trace);
    } else {
      assert i'.trace == p.trace;
    }
    if i.reply.Err? {
      UndoLeads(hash, d, i', r, None, Storage, f);
    } else {
      EventLeads(hash, i.engine, r.txId, r.state, f.eventIo);
      var v := AppendStateEvent(i.engine, r.txId, r.state, f.eventIo);
      ApplyConcat(hash, d, i'.trace, v.trace);
      UndoLeads(hash, d, v.(trace := i'.trace + v.trace), r, EntryKey(entry), SafeMode, f);
    }
  }

  lemma EventThenIndexLeads(
    hash: HashFunction, d: Disk, before: TxTable, p: Outcome<()>, r: WalRecord, entry: IndexEntry, f: Faults)
    requires Leads(hash, d, p)
    ensures Leads(hash, d, EventThenIndex(hash, before, p, r, entry, f))
  {
    hide RecordIdempotency, AppendStateEvent, ApplyAll;
    EventLeads(hash, p.engine, r.txId, r.state, f.eventIo);
    var v := AppendStateEvent(p.engine, r.txId, r.state, f.eventIo);
    ApplyConcat(hash, d, p.trace, v.trace);
    if v.reply.Err? {
      var undo := WalTrace(Done(RevertSteps(r.seqNo), f.revertIo));
      WalTraceApplies(hash, v.engine.disk, Done(RevertSteps(r.seqNo), f.revertIo));
      ApplyConcat(hash, d, p.trace + v.trace, undo);
    } else {
      IndexLeads(hash, v.engine, entry, f.indexIo);
      var i := RecordIdempotency(hash, v.engine, entry, f.indexIo);
      ApplyConcat(hash, d, p.trace + v.trace, i.trace);
    }
  }

  lemma CommitLeads(hash: HashFunction, flow: Flow, e: Engine, r: WalRecord, entry: Option<IndexEntry>, f: Faults)
    requires !flow.Stepping? ==> entry.Some?
    ensures Leads(hash, e.disk, Commit(hash, flow, e, r, entry, f))
  {
    hide PersistTransition, IndexThenEvent, EventThenIndex, ApplyAll;
    PersistLeads(hash, e, r, f.walIo);
    var p := PersistTransition(e, r, f.walIo);
    if p.reply.Ok? {
      if flow.Refusing? {
        EventThenIndexLeads(hash, e.disk, e.mem.txs, p, r, entry.value, f);
      } else {
        IndexThenEventLeads(hash, e.disk, flow, p, r, entry, f);
      }
    }
  }

  lemma ReplayFoundLeads(hash: HashFunction, e: Engine, op: Operation, entry: IndexEntry, f: Faults)
    ensures Leads(hash, e.disk, ReplayFound(hash, e, op, entry, f))
  {
    hide RecordIdempotency, AppendStateEvent;
    IndexLeads(hash, e, entry, f.indexIo);
    var i := RecordIdempotency(hash, e, entry, f.indexIo);
    var reply := Replayed(op, entry.result);
    if op.ConfigPropose? && reply.Ok? && i.reply.Ok? {
      EventLeads(hash, i.engine, reply.value.proposedTx, TxStates.Proposed, f.eventIo);
      var v := AppendStateEvent(i.engine, reply.value.proposedTx, TxStates.Proposed, f.eventIo);
      ApplyConcat(hash, e.disk, i.trace, v.trace);
    }
  }

  /** What a call does to the disk: nothing, a commit, or writing back a key found in the log. */
  datatype Work =
    | NoWork
    | Committing(flow: Flow, record: WalRecord, entry: Option<IndexEntry>)
    | WritingBack(op: Operation, found: IndexEntry)

  predicate WellFormed(w: Work) {
    w.Committing? && !w.flow.Stepping? ==> w.entry.Some?
  }

  function WorkFor(e: Engine, call: Call, env: Env): Work {
    if e.mem.safeMode then NoWork
    else if call.Propose? || call.ApplyTx? then
      var key := KeyOf(call);
      if key in e.mem.entries then NoWork
      else
        match LookupFromWal(e, key, call.fingerprint, env)
        case Conflict => NoWork
        case Found(entry) => WritingBack(key.op, entry)
        case Missing => if call.Propose? then ProposeWork(e, call, env) else ApplyWork(e, call, env)
    else StepWork(e, call, if call.Test? then TxStates.Testing else TxStates.Probation, None)
  }

  function ProposeWork(e: Engine, call: Call, env: Env): Work
    requires call.Propose?
  {
    if env.staged.Err? then NoWork
    else
      var result := ProposedResult(env);
      var entry := Some(IndexEntry(KeyOf(call), env.freshTxId, call.fingerprint, result));
      Committing(Proposing, RecordFor(e, env.freshTxId, TxStates.Proposed, entry, ProposeIdentity(call, env), result), entry)
  }

  function StepWork(e: Engine, call: Call, target: TxStates.TxState, binding: Option<(IdemKey, string)>): Work
    requires !call.Propose?
  {
    if call.txId !in e.mem.txs || !Owns(e.mem.txs[call.txId], call.agentId, call.digest)
       || !TxStates.BrokerMayEnter(e.mem.txs[call.txId].state, target) then NoWork
    else
      var result := StepResult(call.txId, target);
      var entry := if binding.None? then None else Some(IndexEntry(binding.value.0, call.txId, binding.value.1, result));
      Committing(Stepping, RecordFor(e, call.txId, target, entry, e.mem.txs[call.txId].identity, result), entry)
  }

  function ApplyWork(e: Engine, call: Call, env: Env): Work
    requires call.ApplyTx?
  {
    if call.txId !in e.mem.txs || !Owns(e.mem.txs[call.txId], call.agentId, call.digest) then NoWork
    else if e.mem.txs[call.txId].identity.baseRevision != env.currentBase then
      var result := StepResult(call.txId, TxStates.Rejected);
      var entry := Some(IndexEntry(KeyOf(call), call.txId, call.fingerprint, result));
      Committing(Refusing, RecordFor(e, call.txId, TxStates.Rejected, entry, e.mem.txs[call.txId].identity, result), entry)
    else StepWork(e, call, TxStates.Applying, Some((KeyOf(call), call.fingerprint)))
  }

  function WorkDone(hash: HashFunction, e: Engine, w: Work, f: Faults): (Engine, seq<DiskStep>)
    requires WellFormed(w)
  {
    match w
    case NoWork => (e, [])
    case Committing(flow, r, entry) => var o := Commit(hash, flow, e, r, entry, f); (o.engine, o.trace)
    case WritingBack(op, entry) => var o := ReplayFound(hash, e, op, entry, f); (o.engine, o.trace)
  }

  /** Which work a call does never depends on the faults, and it does that work and no other. */
  lemma CallDoesItsWork(hash: HashFunction, e: Engine, call: Call, env: Env, f: Faults)
    ensures WorkFor(e, call, env.(faults := f)) == WorkFor(e, call, env)
    ensures WellFormed(WorkFor(e, call, env))
    ensures var o := Perform(hash, e, call, env.(faults := f));
      (o.engine, o.trace) == WorkDone(hash, e, WorkFor(e, call, env), f)
  {
    hide Commit, ReplayFound, LookupIn, SnapOf;
  }

  /** Every call's disk is what its trace makes of the old one. */
  lemma TraceIsEffect(hash: HashFunction, e: Engine, call: Call, env: Env)
    ensures Leads(hash, e.disk, Perform(hash, e, call, env))
  {
    hide Commit, ReplayFound, Perform, WorkFor;
    CallDoesItsWork(hash, e, call, env, env.faults);
    match WorkFor(e, call, env) {
      case NoWork =>
      case Committing(flow, r, entry) => CommitLeads(hash, flow, e, r, entry, env.faults);
      case WritingBack(op, entry) => ReplayFoundLeads(hash, e, op, entry, env.faults);
    }
  }

  // ----- Cutting a trace short -----

  lemma UndoCut(hash: HashFunction, v: Outcome<()>, r: WalRecord, key: Option<IdemKey>, error: EngineError, f: Faults, k: nat)
    returns (f': Faults)
    requires |v.trace| <= k <= |Undo(hash, v, r, key, error, f).trace|
    ensures f' == f.(revertIo := f'.revertIo, removeIo := f'.removeIo)
    ensures k == |v.trace| ==> f'.revertIo == FailedAfter(0)
    ensures Undo(hash, v, r, key, error, f').trace == Undo(hash, v, r, key, error, f).trace[..k]
  {
    hide WalRun, RevertSteps;
    var whole := Undo(hash, v, r, key, error, f).trace;
    var undo := WalTrace(Done(RevertSteps(r.seqNo), f.revertIo));
    var j := k - |v.trace|;
    if j <= |undo| {
      f' := f.(revertIo := FailedAfter(j), removeIo := FailedAfter(0));
      assert WalTrace(Done(RevertSteps(r.seqNo), f'.revertIo)) == undo[..j];
      assert v.trace + undo[..j] == (v.trace + undo)[..k] == whole[..k];
      assert v.trace + undo[..j] + [] == v.trace + undo[..j];
    } else {
      f' := f;
      assert k == |whole|;
    }
  }

  /** With the revert failing at once, undoing adds no step. */
  lemma UndoNothing(hash: HashFunction, v: Outcome<()>, r: WalRecord, key: Option<IdemKey>, error: EngineError, f: Faults)
    requires f.revertIo == FailedAfter(0)
    ensures Undo(hash, v, r, key, error, f).trace == v.trace
  {
  }

  lemma EventCut(e: Engine, r: WalRecord, io: Io, j: nat)
    requires j <= |AppendStateEvent(e, r.txId, r.state, io).trace|
    ensures var v := AppendStateEvent(e, r.txId, r.state, FailedAfter(j));
      v.reply.Err? && v.trace == AppendStateEvent(e, r.txId, r.state, io).trace[..j]
  {
    hide EventRun;
  }

  lemma IndexCut(hash: HashFunction, e: Engine, entry: IndexEntry, io: Io, j: nat)
    requires j <= |RecordIdempotency(hash, e, entry, io).trace|
    ensures var i := RecordIdempotency(hash, e, entry, FailedAfter(j));
      i.reply.Err? && i.trace == RecordIdempotency(hash, e, entry, io).trace[..j]
  {
    hide InsertedFiles;
  }

  lemma UndoStarts(hash: HashFunction, v: Outcome<()>, r: WalRecord, key: Option<IdemKey>, error: EngineError, f: Faults)
    ensures v.trace <= Undo(hash, v, r, key, error, f).trace
  {
  }

  lemma IndexThenEventCut(
    hash: HashFunction, flow: Flow, p: Outcome<()>, r: WalRecord, entry: Option<IndexEntry>, f: Faults, k: nat)
    returns (f': Faults)
    requires |p.trace| <= k <= |IndexThenEvent(hash, flow, p, r, entry, f).trace|
    ensures f' == f.(indexIo := f'.indexIo, eventIo := f'.eventIo, revertIo := f'.revertIo, removeIo := f'.removeIo)
    ensures IndexThenEvent(hash, flow, p, r, entry, f').trace == IndexThenEvent(hash, flow, p, r, entry, f).trace[..k]
  {
    hide Undo, RecordIdempotency, AppendStateEvent;
    var i := if entry.None? then Outcome(p.engine, Ok(()), []) else RecordIdempotency(hash, p.engine, entry.value, f.indexIo);
    var i' := i.(trace := p.trace + i.trace);
    var v := AppendStateEvent(i.engine, r.txId, r.state, f.eventIo);
    var v' := v.(trace := i'.trace + v.trace);
    UndoStarts(hash, i', r, None, Storage, f);
    UndoStarts(hash, v', r, EntryKey(entry), SafeMode, f);
    if entry.Some? && k <= |i'.trace| {
      f' := f.(indexIo := FailedAfter(k - |p.trace|), revertIo := FailedAfter(0));
      IndexCut(hash, p.engine, entry.value, f.indexIo, k - |p.trace|);
      var j := RecordIdempotency(hash, p.engine, entry.value, f'.indexIo);
      UndoNothing(hash, j.(trace := p.trace + j.trace), r, None, Storage, f');
      assert p.trace + j.trace == i'.trace[..k];
    } else if i.reply.Err? {
      f' := UndoCut(hash, i', r, None, Storage, f, k);
    } else {
      if k <= |v'.trace| {
        f' := f.(eventIo := FailedAfter(k - |i'.trace|), revertIo := FailedAfter(0));
        EventCut(i.engine, r, f.eventIo, k - |i'.trace|);
        var w := AppendStateEvent(i.engine, r.txId, r.state, f'.eventIo);
        UndoNothing(hash, w.(trace := i'.trace + w.trace), r, EntryKey(entry), SafeMode, f');
        assert i'.trace + w.trace == v'.trace[..k];
      } else {
        f' := UndoCut(hash, v', r, EntryKey(entry), SafeMode, f, k);
      }
    }
  }

  lemma EventThenIndexCut(
    hash: HashFunction, before: TxTable, p: Outcome<()>, r: WalRecord, entry: IndexEntry, f: Faults, k: nat)
    returns (f': Faults)
    requires |p.trace| <= k <= |EventThenIndex(hash, before, p, r, entry, f).trace|
    ensures f' == f.(indexIo := f'.indexIo, eventIo := f'.eventIo, revertIo := f'.revertIo)
    ensures EventThenIndex(hash, before, p, r, entry, f').trace == EventThenIndex(hash, before, p, r, entry, f).trace[..k]
  {
    hide RecordIdempotency, AppendStateEvent, WalRun, RevertSteps;
    var v := AppendStateEvent(p.engine, r.txId, r.state, f.eventIo);
    var told, at := p.trace + v.trace, |p.trace| + |v.trace|;
    if k <= at {
      f' := f.(eventIo := FailedAfter(k - |p.trace|), revertIo := FailedAfter(0));
      EventCut(p.engine, r, f.eventIo, k - |p.trace|);
      assert p.trace + v.trace[..k - |p.trace|] + [] == told[..k];
    } else if v.reply.Err? {
      f' := f.(revertIo := FailedAfter(k - at));
      var undo := WalTrace(Done(RevertSteps(r.seqNo), f.revertIo));
      assert WalTrace(Done(RevertSteps(r.seqNo), f'.revertIo)) == undo[..k - at];
      assert told + undo[..k - at] == (told + undo)[..k];
    } else {
      f' := f.(indexIo := FailedAfter(k - at));
      IndexCut(hash, v.engine, entry, f.indexIo, k - at);
      var index := RecordIdempotency(hash, v.engine, entry, f.indexIo).trace;
      assert told + index[..k - at] == (told + index)[..k];
    }
  }

  lemma CommitCut(hash: HashFunction, flow: Flow, e: Engine, r: WalRecord, entry: Option<IndexEntry>, f: Faults, k: nat)
    returns (f': Faults)
    requires !flow.Stepping? ==> entry.Some?
    requires k <= |Commit(hash, flow, e, r, entry, f).trace|
    ensures Commit(hash, flow, e, r, entry, f').trace == Commit(hash, flow, e, r, entry, f).trace[..k]
  {
    hide IndexThenEvent, EventThenIndex, WalRun;
    var p := PersistTransition(e, r, f.walIo);
    if p.reply.Err? || k < |p.trace| {
      CommitStarts(hash, flow, e, r, entry, f);
      f' := if e.mem.safeMode then f else f.(walIo := FailedAfter(k));
      assert PersistTransition(e, r, f'.walIo).trace == p.trace[..k];
    } else if flow.Refusing? {
      f' := EventThenIndexCut(hash, e.mem.txs, p, r, entry.value, f, k);
    } else {
      f' := IndexThenEventCut(hash, flow, p, r, entry, f, k);
    }
  }

  lemma CommitStarts(hash: HashFunction, flow: Flow, e: Engine, r: WalRecord, entry: Option<IndexEntry>, f: Faults)
    requires !flow.Stepping? ==> entry.Some?
    ensures PersistTransition(e, r, f.walIo).trace <= Commit(hash, flow, e, r, entry, f).trace
  {
    hide Undo, WalRun, EventRun;
    var p := PersistTransition(e, r, f.walIo);
    if p.reply.Ok? && !flow.Refusing? {
      var i := if entry.None? then Outcome(p.engine, Ok(()), []) else RecordIdempotency(hash, p.engine, entry.value, f.indexIo);
      var i' := i.(trace := p.trace + i.trace);
      UndoStarts(hash, i', r, None, Storage, f);
      var v := AppendStateEvent(i.engine, r.txId, r.state, f.eventIo);
      UndoStarts(hash, v.(trace := i'.trace + v.trace), r, EntryKey(entry), SafeMode, f);
    }
  }

  lemma ReplayFoundCut(hash: HashFunction, e: Engine, op: Operation, entry: IndexEntry, f: Faults, k: nat) returns (f': Faults)
    requires k <= |ReplayFound(hash, e, op, entry, f).trace|
    ensures ReplayFound(hash, e, op, entry, f').trace == ReplayFound(hash, e, op, entry, f).trace[..k]
  {
    var whole := ReplayFound(hash, e, op, entry, f).trace;
    var i := RecordIdempotency(hash, e, entry, f.indexIo);
    if whole == [] {
      f' := f;
    } else if k <= |i.trace| {
      f' := f.(indexIo := FailedAfter(k));
    } else {
      f' := f.(eventIo := FailedAfter(k - |i.trace|));
    }
    assert ReplayFound(hash, e, op, entry, f').trace == whole[..k];
  }

  /** A crash between any two steps of a call leaves the disk that some storage fault leaves. */
  lemma CrashIsFault(hash: HashFunction, e: Engine, call: Call, env: Env, k: nat) returns (f': Faults)
    requires k <= |Perform(hash, e, call, env).trace|
    ensures Perform(hash, e, call, env.(faults := f')).engine.disk == ApplyAll(hash, e.disk, Perform(hash, e, call, env).trace[..k])
  {
    hide Commit, ReplayFound, Perform, WorkFor, ApplyAll;
    CallDoesItsWork(hash, e, call, env, env.faults);
    match WorkFor(e, call, env) {
      case NoWork => f' := env.faults;
      case Committing(flow, r, entry) => f' := CommitCut(hash, flow, e, r, entry, env.faults, k);
      case WritingBack(op, entry) => f' := ReplayFoundCut(hash, e, op, entry, env.faults, k);
    }
    CallDoesItsWork(hash, e, call, env, f');
    TraceIsEffect(hash, e, call, env.(faults := f'));
  }
}
