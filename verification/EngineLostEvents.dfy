/**
 A crash after a record is durable and before its event is: the engine reopens with the record,
 the event is never made up for in any later run, and the transaction can go no further.
 */
module EngineLostEvents {
  import opened Wrappers
  import opened TxStates
  import opened Wal
  import opened Events
  import opened Idempotency
  import opened Recovery
  import opened EngineModel
  import opened EngineTraces
  import opened EngineRuns
  import opened EngineIdempotency
  import opened EngineFaultFree
  import opened EngineFailures
  import opened EngineEvents

  /** The number of disk steps of an append: a crash after them loses the event. */
  const APPEND_STEPS: nat := 4

  // ----- The crash -----

  /** A crash right after the log append leaves the record in place and everything else as it was. */
  lemma CrashLosesEvent(hash: HashFunction, e: Engine, call: Call, env: Env)
    requires Ready(e) && e.disk.wal.temps == {} && env.faults == NO_FAULTS
    requires WorkFor(e, call, env).Committing?
    ensures var r := WorkFor(e, call, env).record;
      CrashDisk(hash, e, call, env, APPEND_STEPS)
      == e.disk.(wal := WalDisk(e.disk.wal.records + [r], {}, Some(r.seqNo)))
  {
    hide Perform, Commit, WorkFor, WalRun, ApplyAll;
    CallDoesItsWork(hash, e, call, env, NO_FAULTS);
    WorkIsFresh(e, call, env);
    var Committing(flow, r, entry) := WorkFor(e, call, env);
    CommitStarts(hash, flow, e, r, entry, NO_FAULTS);
    var append := WalTrace(AppendSteps(r));
    PersistTrace(e, r);
    var trace := Commit(hash, flow, e, r, entry, NO_FAULTS).trace;
    assert trace[..APPEND_STEPS] == append;
    WalTraceApplies(hash, e.disk, AppendSteps(r));
    WholeRun(e.disk.wal, AppendSteps(r));
    UnrollAppend(e.disk.wal, r, Completed);
    assert e.disk.wal.temps - {r.seqNo} == {};
  }

  lemma PersistTrace(e: Engine, r: WalRecord)
    requires !e.mem.safeMode
    ensures PersistTransition(e, r, Completed).trace == WalTrace(AppendSteps(r)) && |WalTrace(AppendSteps(r))| == APPEND_STEPS
  {
    assert AppendSteps(r)[..4] == AppendSteps(r);
  }

  lemma WholeRun(d: WalDisk, steps: seq<WalStep>)
    ensures WalRun(d, steps, Completed) == WalApplyAll(d, steps)
  {
    assert steps[..|steps|] == steps;
  }

  /** The run up to the crash. */
  function CrashedRun(actions: seq<Action>, call: Call, env: Env): seq<Action> {
    actions + [CrashIn(call, env, APPEND_STEPS)]
  }

  /** The engine is live, and the call is a legal one that commits a transition. */
  ghost predicate LosesEvent(hash: HashFunction, actions: seq<Action>, call: Call, env: Env) {
    && LegalRun(hash, actions) && FromFresh(hash, actions).Up?
    && LegalCall(FromFresh(hash, actions).engine, call, env)
    && WorkFor(FromFresh(hash, actions).engine, call, env).Committing?
  }

  /**
   After any legal run, a call cut off between its record and its event, and a restart: the engine
   opens with the transition in its table, outside safe mode, and the transaction is behind its events.
   */
  lemma CrashedCallReopens(hash: HashFunction, actions: seq<Action>, call: Call, env: Env, newLogId: string)
    requires LosesEvent(hash, actions, call, env)
    ensures var e, r := FromFresh(hash, actions).engine, WorkFor(FromFresh(hash, actions).engine, call, env).record;
      && var crashed := FromFresh(hash, CrashedRun(actions, call, env));
      && crashed == Down(e.disk.(wal := WalDisk(e.disk.wal.records + [r], {}, Some(r.seqNo))))
      && var again := Step(hash, crashed, Start(newLogId)).engine;
      && Sound(again) && again.mem.txs == e.mem.txs[r.txId := SnapOf(r)]
      && !CaughtUp(again.disk.wal.records, again.disk.events.lines, r.txId)
  {
    hide CrashDisk, WorkFor, Opened, Exact, Sound, CaughtUp, NextOk, TableOf, SnapOf, LegalRun, Run, RecordsOf;
    var e := FromFresh(hash, actions).engine;
    LegalRunsStayExact(hash, actions);
    LegalWorkFacts(hash, e, call, env);
    var r := WorkFor(e, call, env).record;
    CrashLosesEvent(hash, e, call, env);
    RunOneMore(hash, actions, CrashIn(call, env, APPEND_STEPS));
    var d := CrashDisk(hash, e, call, env, APPEND_STEPS);
    LostEventReopens(hash, e, r, d, newLogId);
    TableAfterAppend(e.disk.wal.records, r);
  }

  lemma RunOneMore(hash: HashFunction, actions: seq<Action>, a: Action)
    ensures FromFresh(hash, actions + [a]) == Step(hash, FromFresh(hash, actions), a)
  {
    hide Step;
    assert (actions + [a])[..|actions|] == actions;
  }

  lemma LegalWorkFacts(hash: HashFunction, e: Engine, call: Call, env: Env)
    requires Exact(hash, e) && LegalCall(e, call, env) && WorkFor(e, call, env).Committing?
    ensures var r := WorkFor(e, call, env).record;
      && r.seqNo == |e.disk.wal.records| + 1 && r.txId != "" && r.approvalRef.None? && NextOk(e.disk.wal.records, r)
      && e.mem.txs == TableOf(e.disk.wal.records) && Named(hash, e.disk.index)
      && Ready(e) && e.disk.wal.temps == {} && Numbered(e.disk.wal.records) && Keyed(r)
      && OneForOne(e.disk.wal.records, e.disk.events.lines) && SemanticsOk(e.disk.wal.records)
  {
    hide WorkFor, NextOk, TableOf, SemanticsOk, AllKeyed, OneForOne, IndexComplete, Keyed, RecordsOf;
    WorkIsLawful(hash, e, call, env);
    ExactCounts(hash, e);
  }

  // ----- No later run makes up for it -----

  /** What stays true of a transaction whose event was lost: the records up to it, and the events before it. */
  datatype Lost = Lost(base: seq<WalRecord>, seen: seq<TxState>) {
    predicate Valid() {
      base != []
    }

    function Last(): WalRecord
      requires Valid()
    {
      base[|base| - 1]
    }
  }

  predicate StillBehind(l: Lost, d: Disk)
    requires l.Valid()
  {
    var states := EventStates(d.events.lines, l.Last().txId);
    && l.base <= d.wal.records
    && l.seen <= states && (|l.seen| < |states| ==> states[|l.seen|] != l.Last().state)
  }

  /** While the lost event is a proposal's, its record stays the only one that proposes the transaction. */
  predicate OnlyProposal(l: Lost, records: seq<WalRecord>)
    requires l.Valid()
  {
    l.Last().state.Proposed? ==>
      forall i :: 0 <= i < |records| && records[i].state.Proposed? && records[i].txId == l.Last().txId ==> records[i] == l.Last()
  }

  ghost predicate DiskBehind(l: Lost, d: Disk)
    requires l.Valid()
  {
    StillBehind(l, d) && OnlyProposal(l, d.wal.records) && AllKeyed(d.wal.records)
  }

  /** In memory the transaction has come at least as far, and a proposal's key is known. */
  predicate MemoryBeyond(l: Lost, mem: Memory)
    requires l.Valid()
  {
    var r := l.Last();
    && r.txId in mem.txs && Rank(r.state) <= Rank(mem.txs[r.txId].state)
    && (r.state.Proposed? ==> r.idemKey.Some? && IdemKey(r.identity.agentId, Operation.ConfigPropose, r.idemKey.value) in mem.entries)
  }

  ghost predicate EngineBehind(l: Lost, e: Engine)
    requires l.Valid()
  {
    DiskBehind(l, e.disk) && InOrder(e) && EngineEventsInOrder(e) && (!e.mem.safeMode ==> MemoryBeyond(l, e.mem))
  }

  ghost predicate SystemBehind(l: Lost, sys: System)
    requires l.Valid()
  {
    && DiskBehind(l, DiskOf(sys)) && Ordered(DiskOf(sys).wal.records) && EventsInOrder(DiskOf(sys).events)
    && (sys.Up? ==> EngineBehind(l, sys.engine))
  }

  /** Fresh transaction ids never repeat the lost one. */
  predicate Avoids(a: Action, tx: string) {
    (a.Serve? || a.CrashIn?) ==> a.env.freshTxId != tx
  }

  predicate AllAvoid(actions: seq<Action>, tx: string) {
    forall i :: 0 <= i < |actions| ==> Avoids(actions[i], tx)
  }

  /** What a commit can record for the transaction: a state further on, or a rejection; never the lost one again. */
  lemma WorkGoesBeyond(l: Lost, e: Engine, call: Call, env: Env)
    requires l.Valid() && !l.Last().state.Rejected? && MemoryBeyond(l, e.mem) && env.freshTxId != l.Last().txId
    ensures var w := WorkFor(e, call, env);
      w.Committing? ==>
        && Keyed(w.record) && (w.entry.Some? ==> w.entry.value.key !in e.mem.entries)
        && (w.record.txId == l.Last().txId ==> !w.record.state.Proposed? && Rank(l.Last().state) <= Rank(w.record.state)
                                                && w.record.state != l.Last().state)
  {
    hide LookupIn, SnapOf;
  }

  lemma LinesBehind(l: Lost, d: Disk, lines: seq<StoredEvent>, tx: string, state: TxState, seqNo: nat)
    requires l.Valid() && StillBehind(l, d)
    requires lines == d.events.lines || lines == d.events.lines + [StoredEvent(seqNo, TX_STATE_KIND, TxStatePayload(tx, state))]
    requires tx == l.Last().txId ==> state != l.Last().state
    ensures StillBehind(l, d.(events := d.events.(lines := lines)))
  {
    hide EventStates;
    if lines != d.events.lines {
      EventStatesAfter(d.events.lines, StoredEvent(seqNo, TX_STATE_KIND, TxStatePayload(tx, state)), l.Last().txId);
    }
  }

  lemma CommitStaysBehind(hash: HashFunction, l: Lost, e: Engine, call: Call, env: Env)
    requires l.Valid() && !l.Last().state.Rejected? && EngineBehind(l, e) && env.freshTxId != l.Last().txId
    requires WorkFor(e, call, env).Committing?
    ensures EngineBehind(l, Perform(hash, e, call, env).engine)
  {
    hide Perform, WorkFor, Commit, EventStates, AtMostOneEvent, EngineEventsInOrder, Keyed, InOrder;
    CallDoesItsWork(hash, e, call, env, env.faults);
    CallGrowsInOrder(hash, e, call, env);
    CallKeepsEvents(hash, e, call, env);
    WorkIsFresh(e, call, env);
    WorkGoesBeyond(l, e, call, env);
    var Committing(flow, r, entry) := WorkFor(e, call, env);
    var e' := Commit(hash, flow, e, r, entry, env.faults).engine;
    InOrderIsReady(e);
    CommitEnds(hash, flow, e, r, entry, env.faults);
    CommitEvents(hash, flow, e, r, entry, env.faults);
    OneEventKeepsOrder(e, r.txId, r.state, env.faults.eventIo, e');
    LinesBehind(l, e.disk, e'.disk.events.lines, r.txId, r.state, e.mem.eventMeta.nextSeq);
    CommitIndexEnds(hash, flow, e, r, entry, env.faults);
    RecordsStayBehind(l, e.disk.wal.records, r, e'.disk.wal.records);
  }

  lemma InOrderIsReady(e: Engine)
    requires InOrder(e) && !e.mem.safeMode
    ensures Ready(e)
  {
  }

  lemma RecordsStayBehind(l: Lost, records: seq<WalRecord>, r: WalRecord, records': seq<WalRecord>)
    requires l.Valid() && OnlyProposal(l, records) && AllKeyed(records) && Keyed(r)
    requires records' == records || records' == records + [r]
    requires r.txId == l.Last().txId ==> !r.state.Proposed?
    ensures OnlyProposal(l, records') && AllKeyed(records')
  {
    hide Keyed;
    forall i | 0 <= i < |records'| ensures Keyed(records'[i]) {
      assert i < |records| ==> records'[i] == records[i];
    }
    forall i | 0 <= i < |records'| && records'[i].state.Proposed? && records'[i].txId == l.Last().txId && l.Last().state.Proposed?
      ensures records'[i] == l.Last()
    {
      assert i < |records| ==> records'[i] == records[i];
    }
  }

  lemma {:induction false} FoundIsCarried(records: seq<WalRecord>, key: IdemKey, fingerprint: string)
    requires LookupIn(records, key, fingerprint).Found?
    ensures var entry := LookupIn(records, key, fingerprint).entry;
      entry.key == key && exists i :: 0 <= i < |records| && Carries(records[i], key) && records[i].result == Some(entry.result)
  {
    var n := |records| - 1;
    if Carries(records[n], key) && records[n].result.Some? {
    } else {
      FoundIsCarried(records[..n], key, fingerprint);
      var i :| 0 <= i < n && Carries(records[..n][i], key)
               && records[..n][i].result == Some(LookupIn(records[..n], key, fingerprint).entry.result);
      assert records[i] == records[..n][i];
    }
  }

  /** Writing a key back never concerns the lost proposal, whose key is known. */
  lemma WriteBackIsOther(l: Lost, e: Engine, call: Call, env: Env)
    requires l.Valid() && DiskBehind(l, e.disk) && MemoryBeyond(l, e.mem)
    ensures var w := WorkFor(e, call, env);
      w.WritingBack? ==>
        && w.found.key !in e.mem.entries && !e.mem.safeMode
        && (w.op.ConfigPropose? && w.found.result.txId == l.Last().txId ==> !l.Last().state.Proposed?)
  {
    hide LookupIn, StillBehind;
    var w := WorkFor(e, call, env);
    if w.WritingBack? {
      var records, key := e.disk.wal.records, KeyOf(call);
      FoundIsCarried(records, key, call.fingerprint);
      var i :| 0 <= i < |records| && Carries(records[i], key) && records[i].result == Some(w.found.result);
      assert Keyed(records[i]);
      assert w.op.ConfigPropose? ==> records[i].state.Proposed? && records[i].txId == w.found.result.txId;
      assert w.op.ConfigPropose? && records[i] == l.Last() ==> key in e.mem.entries;
    }
  }

  lemma AppliesTellNothing(hash: HashFunction, e: Engine, entry: IndexEntry, f: Faults)
    ensures ReplayFound(hash, e, TxApply, entry, f).engine.disk.events == e.disk.events
  {
    hide InsertedFiles;
  }

  lemma WriteBackStaysBehind(hash: HashFunction, l: Lost, e: Engine, call: Call, env: Env)
    requires l.Valid() && !l.Last().state.Rejected? && EngineBehind(l, e)
    requires WorkFor(e, call, env).WritingBack?
    ensures EngineBehind(l, Perform(hash, e, call, env).engine)
  {
    hide Perform, WorkFor, ReplayFound, EventStates, AtMostOneEvent, EngineEventsInOrder, Keyed, InOrder, OnlyProposal;
    CallDoesItsWork(hash, e, call, env, env.faults);
    CallGrowsInOrder(hash, e, call, env);
    CallKeepsEvents(hash, e, call, env);
    WorkNeedsNormalMode(e, call, env);
    WriteBackIsOther(l, e, call, env);
    var WritingBack(op, entry) := WorkFor(e, call, env);
    var e' := ReplayFound(hash, e, op, entry, env.faults).engine;
    WriteBackLeavesLog(hash, e, op, entry, env.faults);
    WriteBackEnds(hash, e, op, entry, env.faults);
    if op.TxApply? {
      AppliesTellNothing(hash, e, entry, env.faults);
    } else {
      WriteBackEvents(hash, e, op, entry, env.faults);
      OneEventKeepsOrder(e, entry.result.txId, Proposed, env.faults.eventIo, e');
      LinesBehind(l, e.disk, e'.disk.events.lines, entry.result.txId, Proposed, e.mem.eventMeta.nextSeq);
    }
  }

  lemma CallStaysBehind(hash: HashFunction, l: Lost, e: Engine, call: Call, env: Env)
    requires l.Valid() && !l.Last().state.Rejected? && EngineBehind(l, e) && env.freshTxId != l.Last().txId
    ensures EngineBehind(l, Perform(hash, e, call, env).engine)
  {
    hide Perform, WorkFor, EngineBehind;
    CallDoesItsWork(hash, e, call, env, env.faults);
    match WorkFor(e, call, env) {
      case NoWork =>
      case Committing(flow, r, entry) => CommitStaysBehind(hash, l, e, call, env);
      case WritingBack(op, entry) => WriteBackStaysBehind(hash, l, e, call, env);
    }
  }

  /** Opening rebuilds a table in which the transaction is at least as far, and all proposals' keys. */
  lemma OpenStaysBehind(hash: HashFunction, l: Lost, d: Disk, newLogId: string)
    requires l.Valid() && Named(hash, d.index) && DiskBehind(l, d) && Ordered(d.wal.records) && EventsInOrder(d.events)
    requires Keyed(l.Last()) && (l.Last().state.Proposed? ==> l.Last().idemKey.Some?)
    ensures EngineBehind(l, Opened(hash, d, newLogId))
  {
    hide EventStates, SemanticsOk, Merged, Loaded, TableOf, Intact, EventsMatch, RecordsOf, ChainOf, OnlyProposal, AllKeyed, EventsInOrder,
         EngineEventsInOrder, Opened, Carries, Keyed;
    OpenKeepsEvents(hash, d, newLogId);
    OpenedFacts(hash, d, newLogId);
    var e, records, r := Opened(hash, d, newLogId), d.wal.records, l.Last();
    if !e.mem.safeMode {
      RecoveredExactly(d.wal);
      MaxOfNumbered(records);
      LastRankAtLeast(records, |l.base| - 1);
      MergedExactly(Loaded(hash, d.index), records);
      ProposalMerges(r);
      assert records[|l.base| - 1] == r;
    }
  }

  lemma OpenedFacts(hash: HashFunction, d: Disk, newLogId: string)
    requires Named(hash, d.index)
    ensures var e := Opened(hash, d, newLogId);
      && e.disk.wal == d.wal && e.disk.index == d.index && e.disk.events.lines == d.events.lines
      && (!e.mem.safeMode ==>
            && Recovered(d.wal).Some? && e.mem.nextSeq == MaxSeq(d.wal.records) && SemanticsOk(d.wal.records)
            && EventsMatch(d.wal.records, d.events.lines)
            && e.mem.txs == TableOf(d.wal.records) && e.mem.entries == Merged(Loaded(hash, d.index), d.wal.records))
  {
    hide Merged, Loaded, TableOf, SemanticsOk, EventsMatch, Intact, ConsistentWithCheckpoint, MaxSeq;
  }

  lemma ProposalMerges(r: WalRecord)
    requires Keyed(r)
    ensures r.state.Proposed? && r.idemKey.Some? ==>
              MergeEntry(r).Some? &&
              MergeEntry(r).value.key == IdemKey(r.identity.agentId, Operation.ConfigPropose, r.idemKey.value)
  {
  }

  lemma {:induction false} RecordInChain(records: seq<WalRecord>, i: nat)
    requires i < |records|
    ensures exists k :: 0 <= k < |RecordsOf(records, records[i].txId)| && RecordsOf(records, records[i].txId)[k] == records[i]
  {
    var n, tx := |records| - 1, records[i].txId;
    if i < n {
      RecordInChain(records[..n], i);
      var k :| 0 <= k < |RecordsOf(records[..n], tx)| && RecordsOf(records[..n], tx)[k] == records[i];
      assert RecordsOf(records, tx)[k] == records[i];
    } else {
      var chain := RecordsOf(records, tx);
      assert chain[|chain| - 1] == records[i];
    }
  }

  lemma LastRankAtLeast(records: seq<WalRecord>, i: nat)
    requires Numbered(records) && SemanticsOk(records) && i < |records|
    ensures records[i].txId in TableOf(records)
    ensures Rank(records[i].state) <= Rank(TableOf(records)[records[i].txId].state)
  {
    hide RecordsOf, ChainOf, TableOf, RecordOk;
    var tx := records[i].txId;
    var chain := RecordsOf(records, tx);
    RecordInChain(records, i);
    var k :| 0 <= k < |chain| && chain[k] == records[i];
    TableHoldsLast(records, tx);
    ChainOfNumbered(records, tx);
    assert ChainOk(ChainOf(records, tx));
    if k < |chain| - 1 {
      ChainRanks(chain, k, |chain| - 1);
    }
  }

  lemma StepStaysBehind(hash: HashFunction, l: Lost, sys: System, a: Action)
    requires l.Valid() && !l.Last().state.Rejected? && Keyed(l.Last()) && (l.Last().state.Proposed? ==> l.Last().idemKey.Some?)
    requires Named(hash, DiskOf(sys).index) && SystemBehind(l, sys) && Avoids(a, l.Last().txId)
    ensures SystemBehind(l, Step(hash, sys, a))
  {
    hide Perform, Opened, CrashDisk, DiskBehind, EventsInOrder, MemoryBeyond, Keyed;
    match a {
      case Stop =>
      case Start(newLogId) =>
        if sys.Down? {
          OpenStaysBehind(hash, l, sys.disk, newLogId);
        }
      case Serve(call, env) =>
        if sys.Up? {
          CallStaysBehind(hash, l, sys.engine, call, env);
        }
      case CrashIn(call, env, after) =>
        if sys.Up? {
          var f := CrashDiskIsFaultDisk(hash, sys.engine, call, env, after);
          CallStaysBehind(hash, l, sys.engine, call, env.(faults := f));
        }
    }
  }

  lemma {:induction false} LaterRunsStayBehind(hash: HashFunction, l: Lost, before: seq<Action>, later: seq<Action>)
    requires l.Valid() && !l.Last().state.Rejected? && Keyed(l.Last()) && (l.Last().state.Proposed? ==> l.Last().idemKey.Some?)
    requires SystemBehind(l, FromFresh(hash, before)) && AllAvoid(later, l.Last().txId)
    ensures SystemBehind(l, FromFresh(hash, before + later))
  {
    hide Step, SystemBehind, Keyed;
    if later == [] {
      assert before + later == before;
    } else {
      var init, a := later[..|later| - 1], later[|later| - 1];
      LaterRunsStayBehind(hash, l, before, init);
      StepStaysBehind(hash, l, FromFresh(hash, before + init), a);
      RunOneMore(hash, before + init, a);
      assert before + later == (before + init) + [a];
    }
  }

  /** The state the crash leaves is behind in this sense. */
  lemma CrashLeavesBehind(hash: HashFunction, actions: seq<Action>, call: Call, env: Env) returns (l: Lost)
    requires LosesEvent(hash, actions, call, env)
    ensures var e, r := FromFresh(hash, actions).engine, WorkFor(FromFresh(hash, actions).engine, call, env).record;
      && l == Lost(e.disk.wal.records + [r], EventStates(e.disk.events.lines, r.txId)) && l.Last() == r
      && Keyed(r) && (r.state.Proposed? ==> r.idemKey.Some?)
      && l.seen == States(RecordsOf(e.disk.wal.records, r.txId))
      && Numbered(l.base) && r.txId != ""
      && SystemBehind(l, FromFresh(hash, CrashedRun(actions, call, env)))
  {
    hide WorkFor, LegalRun, Run, SemanticsOk, Keyed, TableOf, RecordsOf, EventStates, States, NextOk, CrashDisk;
    var e := FromFresh(hash, actions).engine;
    LegalRunsStayExact(hash, actions);
    LegalWorkFacts(hash, e, call, env);
    CrashLosesEvent(hash, e, call, env);
    RunOneMore(hash, actions, CrashIn(call, env, APPEND_STEPS));
    var r := WorkFor(e, call, env).record;
    l := Lost(e.disk.wal.records + [r], EventStates(e.disk.events.lines, r.txId));
    OneForOneCatchesUp(e.disk.wal.records, e.disk.events.lines, r.txId);
    EventNumbersAreConsecutive(hash, actions);
    ProposalIsNew(hash, e, call, env);
    forall i | 0 <= i < |l.base| ensures Keyed(l.base[i]) {
      assert i < |e.disk.wal.records| ==> l.base[i] == e.disk.wal.records[i];
    }
  }

  lemma ProposalIsNew(hash: HashFunction, e: Engine, call: Call, env: Env)
    requires Exact(hash, e) && LegalCall(e, call, env) && WorkFor(e, call, env).Committing?
    ensures var r := WorkFor(e, call, env).record;
      && (r.state.Proposed? ==> r.idemKey.Some?)
      && forall i :: 0 <= i < |e.disk.wal.records| && r.state.Proposed? ==> e.disk.wal.records[i].txId != r.txId
  {
    hide LookupIn, DiskExact, IndexComplete, TableOf, SnapOf, RecordsOf;
    var r := WorkFor(e, call, env).record;
    if r.state.Proposed? {
      forall i | 0 <= i < |e.disk.wal.records| ensures e.disk.wal.records[i].txId != r.txId {
        if e.disk.wal.records[i].txId == r.txId {
          RecordInChain(e.disk.wal.records, i);
        }
      }
    }
  }

  /**
   No later run, with whatever faults, crashes, restarts and retries, makes up for the lost event
   of a transaction that was not rejected: whenever the engine opens outside safe mode, its events
   for that transaction are still the ones from before the crash, and still behind its records.
   */
  lemma LostEventIsNeverMadeUp(
    hash: HashFunction, actions: seq<Action>, call: Call, env: Env, later: seq<Action>, newLogId: string)
    requires LosesEvent(hash, actions, call, env)
    requires var r := WorkFor(FromFresh(hash, actions).engine, call, env).record;
      !r.state.Rejected? && AllAvoid(later, r.txId)
    ensures var e, r := FromFresh(hash, actions).engine, WorkFor(FromFresh(hash, actions).engine, call, env).record;
      && var d := DiskOf(FromFresh(hash, CrashedRun(actions, call, env) + later));
      && (Opened(hash, d, newLogId).mem.safeMode
          || (EventStates(d.events.lines, r.txId) == EventStates(e.disk.events.lines, r.txId)
              && !CaughtUp(d.wal.records, d.events.lines, r.txId)))
  {
    hide WorkFor, Run, Opened, RecordsOf, EventStates, States, LosesEvent, Keyed, SystemBehind, StillBehind, CaughtUp;
    var l := CrashLeavesBehind(hash, actions, call, env);
    LaterRunsStayBehind(hash, l, CrashedRun(actions, call, env), later);
    BehindOnAcceptance(hash, l, FromFresh(hash, CrashedRun(actions, call, env) + later), newLogId);
  }

  lemma BehindOnAcceptance(hash: HashFunction, l: Lost, sys: System, newLogId: string)
    requires l.Valid() && Named(hash, DiskOf(sys).index) && SystemBehind(l, sys) && l.Last().txId != ""
    requires l.seen == States(RecordsOf(l.base[..|l.base| - 1], l.Last().txId))
    ensures var d := DiskOf(sys);
      || Opened(hash, d, newLogId).mem.safeMode
      || (EventStates(d.events.lines, l.Last().txId) == l.seen && !CaughtUp(d.wal.records, d.events.lines, l.Last().txId))
  {
    hide Opened, RecordsOf, ChainOf, EventStates, States, OnlyProposal, AllKeyed, EventsInOrder, EngineBehind, SemanticsOk, CaughtUp;
    var d := DiskOf(sys);
    OpenedFacts(hash, d, newLogId);
    if !Opened(hash, d, newLogId).mem.safeMode {
      RecoveredExactly(d.wal);
      ChainOfNumbered(d.wal.records, l.Last().txId);
      EventsOnlySeen(l, d);
    }
  }

  lemma EventsOnlySeen(l: Lost, d: Disk)
    requires l.Valid() && StillBehind(l, d) && Numbered(d.wal.records)
    requires l.seen == States(RecordsOf(l.base[..|l.base| - 1], l.Last().txId))
    requires EventStates(d.events.lines, l.Last().txId) <= States(RecordsOf(d.wal.records, l.Last().txId))
    ensures EventStates(d.events.lines, l.Last().txId) == l.seen
    ensures !CaughtUp(d.wal.records, d.events.lines, l.Last().txId)
  {
    hide RecordsOf, EventStates, States;
    var tx, n := l.Last().txId, |l.base|;
    var older, base := RecordsOf(l.base[..n - 1], tx), RecordsOf(l.base, tx);
    ChainAfter(l.base[..n - 1], l.Last(), tx);
    assert l.base[..n - 1] + [l.Last()] == l.base;
    RecordsOfPrefix(d.wal.records, n, tx);
    assert d.wal.records[..n] == l.base;
    StatesAfter(older, l.Last());
    StatesOfPrefix(base, RecordsOf(d.wal.records, tx));
  }

  lemma StatesOfPrefix(shorter: seq<WalRecord>, longer: seq<WalRecord>)
    requires shorter <= longer
    ensures States(shorter) <= States(longer)
  {
  }

  // ----- Except for a rejection -----

  /** A refusal whose event took full effect but reported an error: the record goes, the event stays. */
  predicate EventMisreported(f: Faults) {
    f.walIo.Completed? && f.eventIo == FailedAfter(5) && f.revertIo.Completed?
  }

  lemma RefusalLeavesEvent(hash: HashFunction, e: Engine, r: WalRecord, entry: IndexEntry, f: Faults)
    requires Ready(e) && r.seqNo == e.mem.nextSeq + 1 && r.seqNo > 1 && e.disk.wal.temps == {} && e.disk.events.tail.Clean?
    requires EventMisreported(f)
    ensures var next := e.mem.eventMeta.nextSeq;
      Commit(hash, Refusing, e, r, Some(entry), f).engine.disk
      == Disk(WalDisk(e.disk.wal.records, {}, Some(r.seqNo - 1)),
              EventDisk(e.disk.events.lines + [EventFor(next, r)], Clean, Some(e.mem.eventMeta.(nextSeq := next + 1))),
              e.disk.index)
  {
    hide WalRun, EventRun, AppendSteps, RevertSteps, EventSteps, SnapOf;
    AppendThenRevert(e.disk.wal, r);
    var next := e.mem.eventMeta.nextSeq;
    UnrollEvent(e.disk.events, EventFor(next, r), e.mem.eventMeta.(nextSeq := next + 1), FailedAfter(5));
  }

  /** A refusal of the rejected transaction, under a key not used before, by its owner, from a moved base. */
  lemma AnotherRefusal(e: Engine, tx: string) returns (call: Call, env: Env)
    requires tx in e.mem.txs && !e.mem.safeMode
    ensures EventMisreported(env.faults) && env.freshTxId != tx
    ensures var w := WorkFor(e, call, env);
      && w.Committing? && w.flow.Refusing? && w.entry.Some?
      && w.record.txId == tx && w.record.state.Rejected? && w.record.seqNo == e.mem.nextSeq + 1
  {
    var records, owner := e.disk.wal.records, e.mem.txs[tx].identity;
    var key := NewName((set k | k in e.mem.entries :: k.key) + (set i | 0 <= i < |records| :: records[i].idemKey.GetOr("")));
    assert forall k :: k in e.mem.entries ==> k.key in (set l | l in e.mem.entries :: l.key);
    call := ApplyTx(owner.agentId, owner.manifestDigest, tx, key, "");
    var moved := owner.baseRevision.(etcGitCommit := owner.baseRevision.etcGitCommit + "x");
    assert |moved.etcGitCommit| == |owner.baseRevision.etcGitCommit| + 1;
    assert |tx + "x"| == |tx| + 1;
    env := Env(tx + "x", moved, Err(""), true, NO_FAULTS.(eventIo := FailedAfter(5)));
    forall i | 0 <= i < |records| ensures !Carries(records[i], KeyOf(call)) {
      assert records[i].idemKey.GetOr("") in (set j | 0 <= j < |records| :: records[j].idemKey.GetOr(""));
    }
    UncarriedIsMissing(records, KeyOf(call), call.fingerprint);
  }

  lemma MadeUpMatches(records: seq<WalRecord>, lines: seq<StoredEvent>, r: WalRecord, e: StoredEvent)
    requires Numbered(records) && EventsMatch(records, lines) && r.txId != ""
    requires e.kind == TX_STATE_KIND && e.payload == TxStatePayload(r.txId, r.state)
    requires EventStates(lines, r.txId) + [r.state] == States(RecordsOf(records, r.txId))
    ensures EventsMatch(records, lines + [e]) && CaughtUp(records, lines + [e], r.txId)
  {
    hide EventStates, States, RecordsOf, ChainOf;
    var more := lines + [e];
    forall tx ensures EventStates(more, tx) == if tx == r.txId then EventStates(lines, tx) + [r.state] else EventStates(lines, tx) {
      EventStatesAfter(lines, e, tx);
    }
    ChainOfNumbered(records, r.txId);
    forall i | 0 <= i < |more| ensures EventReadable(more[i]) {
      assert i < |lines| ==> more[i] == lines[i];
    }
  }

  lemma MadeUpReopens(hash: HashFunction, e: Engine, r: WalRecord, ev: StoredEvent, d: Disk, newLogId: string)
    requires Sound(e) && Named(hash, d.index) && e.disk.wal.records != [] && r.txId != ""
    requires d.wal == WalDisk(e.disk.wal.records, {}, Some(|e.disk.wal.records|))
    requires d.events == EventDisk(e.disk.events.lines + [ev], Clean, Some(e.mem.eventMeta.(nextSeq := e.mem.eventMeta.nextSeq + 1)))
    requires ev == StoredEvent(e.mem.eventMeta.nextSeq, TX_STATE_KIND, TxStatePayload(r.txId, r.state))
    requires EventStates(e.disk.events.lines, r.txId) + [r.state] == States(RecordsOf(e.disk.wal.records, r.txId))
    ensures !Opened(hash, d, newLogId).mem.safeMode && CaughtUp(d.wal.records, d.events.lines, r.txId)
  {
    hide SemanticsOk, EventsMatch, TableOf, Merged, Loaded, EventStates, States, RecordsOf, CaughtUp, Recovered;
    SoundIsReady(e);
    RecoveredExactly(e.disk.wal);
    RecoveredExactly(d.wal);
    RecoveredIs(d.wal);
    MadeUpMatches(e.disk.wal.records, e.disk.events.lines, r, ev);
    IntactExactly(d.events, e.mem.eventMeta.nextSeq + 1);
  }

  /** One such refusal on an engine that is behind by exactly the rejection. */
  lemma RefuseAgain(hash: HashFunction, e: Engine, r: WalRecord, older: seq<WalRecord>) returns (call: Call, env: Env)
    requires Sound(e) && Named(hash, e.disk.index) && r.txId in e.mem.txs && r.txId != "" && r.state.Rejected?
    requires e.disk.wal.records == older + [r]
    requires EventStates(e.disk.events.lines, r.txId) == States(RecordsOf(older, r.txId))
    ensures env.freshTxId != r.txId
    ensures var d := Perform(hash, e, call, env).engine.disk;
      Named(hash, d.index) && !Opened(hash, d, "").mem.safeMode && CaughtUp(d.wal.records, d.events.lines, r.txId)
  {
    hide WorkFor, Opened, RecordsOf, EventStates, States, CaughtUp, Sound, Perform, Commit, EventMisreported;
    SoundIsReady(e);
    SoundFacts(e);
    SoundMeta(e);
    call, env := AnotherRefusal(e, r.txId);
    CallDoesItsWork(hash, e, call, env, env.faults);
    PerformKeepsNames(hash, e, call, env);
    var Committing(flow, r', entry) := WorkFor(e, call, env);
    RefusalLeavesEvent(hash, e, r', entry.value, env.faults);
    ChainAfter(older, r, r.txId);
    StatesAfter(RecordsOf(older, r.txId), r);
    MadeUpReopens(hash, e, r, EventFor(e.mem.eventMeta.nextSeq, r'), Perform(hash, e, call, env).engine.disk, "");
  }

  lemma SoundMeta(e: Engine)
    requires Sound(e)
    ensures e.disk.events.meta == Some(e.mem.eventMeta)
  {
  }

  /**
   The lost event of a rejection, and of no other transition, can be made up: by another refusal
   whose event reports an error after all its steps, so that the refusal is taken back and its
   event stays.
   */
  lemma RejectionCanBeMadeUp(hash: HashFunction, actions: seq<Action>, call: Call, env: Env) returns (later: seq<Action>)
    requires LosesEvent(hash, actions, call, env)
    requires WorkFor(FromFresh(hash, actions).engine, call, env).record.state.Rejected?
    ensures var r := WorkFor(FromFresh(hash, actions).engine, call, env).record;
      && AllAvoid(later, r.txId)
      && var d := DiskOf(FromFresh(hash, CrashedRun(actions, call, env) + later));
      && !Opened(hash, d, "").mem.safeMode && CaughtUp(d.wal.records, d.events.lines, r.txId)
  {
    hide WorkFor, Run, Opened, RecordsOf, EventStates, States, LegalRun, LegalCall, SystemBehind, CaughtUp, Sound, Perform, TableOf, Keyed,
         SnapOf;
    var l := CrashLeavesBehind(hash, actions, call, env);
    var e, r, run := FromFresh(hash, actions).engine, l.Last(), CrashedRun(actions, call, env);
    CrashedCallReopens(hash, actions, call, env, "");
    RunOneMore(hash, run, Start(""));
    OpenedFacts(hash, DiskOf(FromFresh(hash, run)), "");
    var e1 := FromFresh(hash, run + [Start("")]).engine;
    var call', env' := RefuseAgain(hash, e1, r, e.disk.wal.records);
    later := [Start(""), Serve(call', env')];
    assert run + later == (run + [Start("")]) + [Serve(call', env')];
    RunOneMore(hash, run + [Start("")], Serve(call', env'));
  }

  /** The run ends on a disk that opens outside safe mode with all the transaction's events in place. */
  ghost predicate MadeUp(hash: HashFunction, actions: seq<Action>, tx: string, newLogId: string) {
    var d := DiskOf(FromFresh(hash, actions));
    !Opened(hash, d, newLogId).mem.safeMode && CaughtUp(d.wal.records, d.events.lines, tx)
  }

  /** A lost event can ever be made up for if and only if it is that of a rejection. */
  lemma LostEventMadeUpExactly(hash: HashFunction, actions: seq<Action>, call: Call, env: Env)
    requires LosesEvent(hash, actions, call, env)
    ensures var r, run := WorkFor(FromFresh(hash, actions).engine, call, env).record, CrashedRun(actions, call, env);
      (exists later, newLogId :: AllAvoid(later, r.txId) && MadeUp(hash, run + later, r.txId, newLogId)) <==> r.state.Rejected?
  {
    hide WorkFor, Run, Opened, CaughtUp, EventStates, LegalRun, LegalCall;
    var r, run := WorkFor(FromFresh(hash, actions).engine, call, env).record, CrashedRun(actions, call, env);
    if r.state.Rejected? {
      var later := RejectionCanBeMadeUp(hash, actions, call, env);
      assert MadeUp(hash, run + later, r.txId, "");
    } else {
      forall later, newLogId | AllAvoid(later, r.txId) ensures !MadeUp(hash, run + later, r.txId, newLogId) {
        LostEventIsNeverMadeUp(hash, actions, call, env, later, newLogId);
      }
    }
  }

  /** Any further transition of the transaction, complete and reported as done, strands the engine: it opens in safe mode. */
  lemma CrashedTransactionIsBlocked(
    hash: HashFunction, actions: seq<Action>, call: Call, env: Env, newLogId: string, call': Call, env': Env)
    requires LosesEvent(hash, actions, call, env) && env'.faults == NO_FAULTS
    requires var r := WorkFor(FromFresh(hash, actions).engine, call, env).record;
      && var w := WorkFor(FromFresh(hash, CrashedRun(actions, call, env) + [Start(newLogId)]).engine, call', env');
      FromFresh(hash, CrashedRun(actions, call, env) + [Start(newLogId)]).Up? && w.Committing? && w.record.txId == r.txId
    ensures var sys := FromFresh(hash, CrashedRun(actions, call, env) + [Start(newLogId), Serve(call', env')]);
      sys.Up? && !sys.engine.mem.safeMode && Opened(hash, sys.engine.disk, newLogId).mem.safeMode
  {
    hide WorkFor, Run, Opened, RecordsOf, LegalRun, CaughtUp, Sound, Perform, Commit, TableOf, Keyed, SnapOf, NextOk, Exact, SemanticsOk,
         OneForOne;
    var run := CrashedRun(actions, call, env);
    var e := FromFresh(hash, actions).engine;
    LegalRunsStayExact(hash, actions);
    LegalWorkFacts(hash, e, call, env);
    CrashedCallReopens(hash, actions, call, env, newLogId);
    RunOneMore(hash, run, Start(newLogId));
    assert run + [Start(newLogId), Serve(call', env')] == (run + [Start(newLogId)]) + [Serve(call', env')];
    RunOneMore(hash, run + [Start(newLogId)], Serve(call', env'));
    var e1, d := FromFresh(hash, run + [Start(newLogId)]).engine, DiskOf(FromFresh(hash, run));
    SoundIsReady(e1);
    SoundFacts(e1);
    OpenedFacts(hash, d, newLogId);
    CallDoesItsWork(hash, e1, call', env', NO_FAULTS);
    WorkIsFresh(e1, call', env');
    WorkIsUnapproved(e1, call', env');
    var w := WorkFor(e1, call', env');
    LostEventBlocks(hash, e, WorkFor(e, call, env).record, d, w.flow, w.record, w.entry, newLogId);
    CommitOkTable(hash, w.flow, e1, w.record, w.entry, NO_FAULTS);
  }

  lemma WorkIsUnapproved(e: Engine, call: Call, env: Env)
    ensures WorkFor(e, call, env).Committing? ==> WorkFor(e, call, env).record.approvalRef.None?
  {
    hide LookupIn;
  }
}
