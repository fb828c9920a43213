/**
 Runs without storage faults: every chain is a path of the transition table, events match records
 one for one, and reopening rebuilds the same table and number. Also, exactly when one more
 complete transition can be reopened.
 */
module EngineFaultFree {
  import opened Wrappers
  import opened TxStates
  import opened Wal
  import opened Events
  import opened Idempotency
  import opened Recovery
  import opened EngineModel
  import opened EngineTraces
  import opened EngineRuns
  import opened EngineIdempotency

  // ----- A complete commit -----

  function EventFor(seqNo: nat, r: WalRecord): StoredEvent {
    StoredEvent(seqNo, TX_STATE_KIND, TxStatePayload(r.txId, r.state))
  }

  /** Record, event and (if any) index entry are added, and nothing else changes. */
  ghost predicate Extended(hash: HashFunction, e: Engine, r: WalRecord, entry: Option<IndexEntry>, e': Engine) {
    var next := e.mem.eventMeta.nextSeq;
    var meta := e.mem.eventMeta.(nextSeq := next + 1);
    && e'.disk.wal == WalDisk(e.disk.wal.records + [r], e.disk.wal.temps - {r.seqNo}, Some(r.seqNo))
    && e'.disk.events == EventDisk(e.disk.events.lines + [EventFor(next, r)], Clean, Some(meta))
    && e'.disk.index == (if entry.None? then e.disk.index else e.disk.index[hash(entry.value.key) := entry.value])
    && e'.mem == Memory(e.mem.txs[r.txId := SnapOf(r)], r.seqNo, false, meta,
                        if entry.None? then e.mem.entries else e.mem.entries[entry.value.key := entry.value])
  }

  lemma CompleteCommitExtends(hash: HashFunction, flow: Flow, e: Engine, r: WalRecord, entry: Option<IndexEntry>)
    requires !flow.Stepping? ==> entry.Some?
    requires Ready(e) && r.seqNo == e.mem.nextSeq + 1 && e.disk.events.tail.Clean?
    ensures Extended(hash, e, r, entry, Commit(hash, flow, e, r, entry, NO_FAULTS).engine)
  {
    hide WalRun, EventRun, AppendSteps, EventSteps, SnapOf, Undo, EventFor;
    UnrollAppend(e.disk.wal, r, Completed);
    var next := e.mem.eventMeta.nextSeq;
    assert EventFor(next, r) == StoredEvent(next, TX_STATE_KIND, TxStatePayload(r.txId, r.state)) by {
      EventForIs(next, r);
    }
    UnrollEvent(e.disk.events, EventFor(next, r), e.mem.eventMeta.(nextSeq := next + 1), Completed);
  }

  lemma EventForIs(seqNo: nat, r: WalRecord)
    ensures EventFor(seqNo, r) == StoredEvent(seqNo, TX_STATE_KIND, TxStatePayload(r.txId, r.state))
  {
  }

  // ----- States that reopen -----

  /** A live engine whose disk would be accepted and would rebuild its memory. */
  ghost predicate Sound(e: Engine) {
    var records := e.disk.wal.records;
    && !e.mem.safeMode
    && Recovered(e.disk.wal) == Some(records)
    && e.mem.nextSeq == |records| && e.mem.txs == TableOf(records)
    && e.disk.events.tail.Clean? && e.disk.events.meta == Some(e.mem.eventMeta)
    && EventsNumbered(e.disk.events.lines) && e.mem.eventMeta.nextSeq == |e.disk.events.lines| + 1
    && SemanticsOk(records) && EventsMatch(records, e.disk.events.lines)
    && forall i :: 0 <= i < |records| ==> records[i].approvalRef.None?
  }

  lemma SoundIsReady(e: Engine)
    requires Sound(e)
    ensures Ready(e) && Numbered(e.disk.wal.records) && e.disk.wal.temps == {}
  {
    hide SemanticsOk, EventsMatch, TableOf;
    RecoveredExactly(e.disk.wal);
  }

  /** The record continues its transaction's chain as the transition table allows, or opens a new one. */
  predicate NextOk(records: seq<WalRecord>, r: WalRecord) {
    var chain := RecordsOf(records, r.txId);
    RecordOk(r) && if chain == [] then r.state.Proposed? else LinkOk(chain[|chain| - 1], r)
  }

  lemma ChainExtended(chain: seq<WalRecord>, r: WalRecord)
    requires ChainOk(chain)
    ensures ChainOk(chain + [r]) <==> if chain == [] then r.state.Proposed? else LinkOk(chain[|chain| - 1], r)
  {
    var longer := chain + [r];
    if chain != [] {
      assert longer[|chain|] == r && longer[|chain| - 1] == chain[|chain| - 1];
      forall i | 0 < i < |chain| ensures LinkOk(longer[i - 1], longer[i]) {
        assert LinkOk(chain[i - 1], chain[i]);
      }
    }
  }

  lemma SemanticsExtended(records: seq<WalRecord>, r: WalRecord)
    requires Numbered(records) && r.seqNo == |records| + 1 && SemanticsOk(records)
    ensures SemanticsOk(records + [r]) <==> NextOk(records, r)
  {
    hide RecordsOf, ChainOk, RecordOk, ChainOf, LinkOk;
    var longer := records + [r];
    ChainExtended(ChainOf(records, r.txId), r);
    forall tx ensures ChainOf(longer, tx) == if tx == r.txId then ChainOf(records, tx) + [r] else ChainOf(records, tx) {
      ChainOfNumbered(longer, tx);
      ChainOfNumbered(records, tx);
      ChainAfter(records, r, tx);
    }
    ChainOfNumbered(records, r.txId);
    assert longer[|records|] == r;
    assert ChainOk(ChainOf(records, r.txId));
    if NextOk(records, r) {
      forall i | 0 <= i < |longer| ensures RecordOk(longer[i]) {
        assert i < |records| ==> longer[i] == records[i];
      }
      forall tx ensures ChainOk(ChainOf(longer, tx)) {
      }
    }
    if SemanticsOk(longer) {
      assert ChainOk(ChainOf(longer, r.txId));
      assert RecordOk(longer[|records|]);
    }
  }

  /** Every transition of the transaction has been reported by an event. */
  predicate CaughtUp(records: seq<WalRecord>, lines: seq<StoredEvent>, tx: string) {
    EventStates(lines, tx) == States(RecordsOf(records, tx))
  }

  lemma EventStatesAfter(lines: seq<StoredEvent>, e: StoredEvent, tx: string)
    requires e.kind == TX_STATE_KIND && e.payload.TxStatePayload?
    ensures EventStates(lines + [e], tx) ==
              if e.payload.txId == tx then EventStates(lines, tx) + [e.payload.state] else EventStates(lines, tx)
  {
    assert (lines + [e])[..|lines|] == lines;
  }

  /** States of a legal chain never repeat, so an event out of turn cannot pass for an earlier one. */
  lemma ChainStatesDiffer(chain: seq<WalRecord>, k: nat)
    requires ChainOk(chain) && k + 1 < |chain|
    ensures chain[k].state != chain[|chain| - 1].state
  {
    ChainRanks(chain, k, |chain| - 1);
  }

  lemma {:induction false} ChainRanks(chain: seq<WalRecord>, i: nat, j: nat)
    requires ChainOk(chain) && i < j < |chain|
    ensures Rank(chain[i].state) < Rank(chain[j].state)
  {
    assert LinkOk(chain[j - 1], chain[j]);
    TransitionsAdvance(chain[j - 1].state, chain[j].state);
    if i < j - 1 {
      ChainRanks(chain, i, j - 1);
    }
  }

  lemma PrefixExtended(a: seq<TxState>, b: seq<TxState>, s: TxState)
    requires a <= b
    requires forall k :: 0 <= k < |b| ==> b[k] != s
    ensures a + [s] <= b + [s] <==> a == b
  {
    if |a| < |b| {
      assert (a + [s])[|a|] == s && (b + [s])[|a|] == b[|a|];
    }
  }

  lemma EventsExtended(records: seq<WalRecord>, r: WalRecord, lines: seq<StoredEvent>, seqNo: nat)
    requires Numbered(records) && r.seqNo == |records| + 1 && r.txId != ""
    requires SemanticsOk(records) && NextOk(records, r) && EventsMatch(records, lines)
    ensures EventsMatch(records + [r], lines + [EventFor(seqNo, r)]) <==> CaughtUp(records, lines, r.txId)
  {
    hide RecordsOf, EventStates, ChainOk, ChainOf, NextOk, SemanticsOk, States;
    var longer, more := records + [r], lines + [EventFor(seqNo, r)];
    forall tx
      ensures EventStates(more, tx) == if tx == r.txId then EventStates(lines, tx) + [r.state] else EventStates(lines, tx)
      ensures ChainOf(longer, tx) == if tx == r.txId then ChainOf(records, tx) + [r] else ChainOf(records, tx)
      ensures ChainOf(records, tx) == RecordsOf(records, tx)
    {
      EventStatesAfter(lines, EventFor(seqNo, r), tx);
      ChainOfNumbered(longer, tx);
      ChainOfNumbered(records, tx);
      ChainAfter(records, r, tx);
    }
    var chain := ChainOf(records, r.txId);
    assert States(chain + [r]) == States(chain) + [r.state] by {
      StatesAfter(chain, r);
    }
    NewStateDiffers(records, r);
    assert EventStates(lines, r.txId) <= States(chain);
    PrefixExtended(EventStates(lines, r.txId), States(chain), r.state);
    forall i | 0 <= i < |more| ensures EventReadable(more[i]) {
      assert i < |lines| ==> more[i] == lines[i];
    }
  }

  lemma StatesAfter(chain: seq<WalRecord>, r: WalRecord)
    ensures States(chain + [r]) == States(chain) + [r.state]
  {
  }

  lemma NewStateDiffers(records: seq<WalRecord>, r: WalRecord)
    requires Numbered(records) && SemanticsOk(records) && NextOk(records, r)
    ensures var states := States(ChainOf(records, r.txId));
      forall k :: 0 <= k < |states| ==> states[k] != r.state
  {
    hide ChainOf, RecordsOf;
    ChainOfNumbered(records, r.txId);
    var chain := ChainOf(records, r.txId);
    assert ChainOk(chain);
    ChainExtended(chain, r);
    forall k | 0 <= k < |chain| ensures chain[k].state != r.state {
      ChainStatesDiffer(chain + [r], k);
      assert (chain + [r])[k] == chain[k];
    }
  }

  // ----- Exactly when a further transition reopens -----

  lemma ExtendedRecovers(e: Engine, r: WalRecord, wal: WalDisk)
    requires Numbered(e.disk.wal.records) && r.seqNo == |e.disk.wal.records| + 1 && e.disk.wal.temps == {}
    requires wal == WalDisk(e.disk.wal.records + [r], e.disk.wal.temps - {r.seqNo}, Some(r.seqNo))
    ensures Recovered(wal) == Some(wal.records) && Numbered(wal.records) && MaxSeq(wal.records) == |wal.records|
  {
    assert Numbered(wal.records);
    RecoveredExactly(wal);
    MaxOfNumbered(wal.records);
  }

  lemma ExtendedIsIntact(e: Engine, r: WalRecord)
    requires EventsNumbered(e.disk.events.lines) && e.mem.eventMeta.nextSeq == |e.disk.events.lines| + 1
    ensures var next := e.mem.eventMeta.nextSeq;
      var events := EventDisk(e.disk.events.lines + [EventFor(next, r)], Clean, Some(e.mem.eventMeta.(nextSeq := next + 1)));
      Intact(events, next + 1) && EventsNumbered(events.lines)
  {
  }

  /**
   From a sound state, a complete transition can be reopened exactly when the transition table
   allows it and every earlier transition of the same transaction has its event.
   */
  lemma ReopensExactly(
    hash: HashFunction, e: Engine, r: WalRecord, entry: Option<IndexEntry>, e': Engine, newLogId: string)
    requires Sound(e) && Named(hash, e'.disk.index) && Extended(hash, e, r, entry, e')
    requires r.seqNo == |e.disk.wal.records| + 1 && r.txId != "" && r.approvalRef.None?
    ensures var o := Opened(hash, e'.disk, newLogId).mem;
      !o.safeMode <==> NextOk(e.disk.wal.records, r) && CaughtUp(e.disk.wal.records, e.disk.events.lines, r.txId)
    ensures NextOk(e.disk.wal.records, r) && CaughtUp(e.disk.wal.records, e.disk.events.lines, r.txId) ==> Sound(e')
  {
    hide SemanticsOk, EventsMatch, NextOk, CaughtUp, TableOf, Merged, Loaded, Intact, MaxSeq, Numbered, RecordsOf;
    SoundIsReady(e);
    var records, lines := e.disk.wal.records, e.disk.events.lines;
    ExtendedRecovers(e, r, e'.disk.wal);
    ExtendedIsIntact(e, r);
    SemanticsExtended(records, r);
    if NextOk(records, r) {
      EventsExtended(records, r, lines, e.mem.eventMeta.nextSeq);
    }
    ChainAfter(records, r, r.txId);
  }

  // ----- Exact states: events and records one for one -----

  predicate OneForOne(records: seq<WalRecord>, lines: seq<StoredEvent>) {
    |lines| == |records| &&
    forall i :: 0 <= i < |records| ==> records[i].txId != "" && lines[i] == EventFor(i + 1, records[i])
  }

  ghost predicate IndexComplete(records: seq<WalRecord>, entries: map<IdemKey, IndexEntry>) {
    forall i, key :: 0 <= i < |records| && Carries(records[i], key) ==> key in entries
  }

  ghost predicate DiskExact(hash: HashFunction, d: Disk) {
    var records := d.wal.records;
    && Named(hash, d.index)
    && Recovered(d.wal) == Some(records) && SemanticsOk(records) && AllKeyed(records)
    && d.events.tail.Clean? && OneForOne(records, d.events.lines)
    && (if d.events.meta.None? then records == [] else d.events.meta.value.nextSeq == |records| + 1)
    && forall i :: 0 <= i < |records| ==> records[i].approvalRef.None?
  }

  ghost predicate Exact(hash: HashFunction, e: Engine) {
    && DiskExact(hash, e.disk)
    && !e.mem.safeMode && e.disk.events.meta == Some(e.mem.eventMeta)
    && e.mem.nextSeq == |e.disk.wal.records| && e.mem.txs == TableOf(e.disk.wal.records)
    && IndexComplete(e.disk.wal.records, e.mem.entries)
  }

  ghost predicate SystemExact(hash: HashFunction, sys: System) {
    if sys.Down? then DiskExact(hash, sys.disk) else Exact(hash, sys.engine)
  }

  lemma {:induction false} OneForOneCatchesUp(records: seq<WalRecord>, lines: seq<StoredEvent>, tx: string)
    requires OneForOne(records, lines)
    ensures CaughtUp(records, lines, tx)
  {
    if records != [] {
      var n := |records| - 1;
      OneForOneCatchesUp(records[..n], lines[..n], tx);
      assert lines[n] == EventFor(n + 1, records[n]);
      StatesAfter(RecordsOf(records[..n], tx), records[n]);
    }
  }

  lemma OneForOneMatches(records: seq<WalRecord>, lines: seq<StoredEvent>)
    requires OneForOne(records, lines) && Numbered(records)
    ensures EventsMatch(records, lines) && EventsNumbered(lines)
  {
    hide RecordsOf, EventStates, ChainOf, States;
    forall tx ensures EventStates(lines, tx) == States(ChainOf(records, tx)) {
      OneForOneCatchesUp(records, lines, tx);
      ChainOfNumbered(records, tx);
    }
    forall i | 0 <= i < |lines| ensures EventReadable(lines[i]) && lines[i].seqNo == i + 1 {
      assert lines[i] == EventFor(i + 1, records[i]);
    }
  }

  lemma ExactIsSound(hash: HashFunction, e: Engine)
    requires Exact(hash, e)
    ensures Sound(e)
  {
    hide SemanticsOk, EventsMatch, TableOf, OneForOne, IndexComplete, AllKeyed, Named;
    RecoveredExactly(e.disk.wal);
    OneForOneMatches(e.disk.wal.records, e.disk.events.lines);
    assert |e.disk.events.lines| == |e.disk.wal.records| by {
      OneForOneLength(e.disk.wal.records, e.disk.events.lines);
    }
  }

  lemma OneForOneLength(records: seq<WalRecord>, lines: seq<StoredEvent>)
    requires OneForOne(records, lines)
    ensures |lines| == |records|
  {
  }

  // ----- Legal calls -----

  /** No storage fault, a fresh transaction id, and refusals only where the transition table has them. */
  predicate LegalCall(e: Engine, call: Call, env: Env) {
    var w := WorkFor(e, call, env);
    && env.faults == NO_FAULTS
    && (call.Propose? ==> env.freshTxId != "" && RecordsOf(e.disk.wal.records, env.freshTxId) == [])
    && (w.Committing? && w.flow.Refusing? ==> call.txId in e.mem.txs && RefusableFrom(e.mem.txs[call.txId].state))
  }

  predicate RefusableFrom(s: TxState) {
    s.Proposed? || s.Testing? || s.Applying?
  }

  lemma {:induction false} UncarriedIsMissing(records: seq<WalRecord>, key: IdemKey, fingerprint: string)
    requires Uncarried(records, key)
    ensures LookupIn(records, key, fingerprint) == Missing
  {
    if records != [] {
      UncarriedIsMissing(records[..|records| - 1], key, fingerprint);
    }
  }

  /** The table entry of a known transaction is its last record, so the next record links to it. */
  lemma StepLinks(hash: HashFunction, e: Engine, txId: string, r: WalRecord)
    requires Exact(hash, e) && txId in e.mem.txs && r.txId == txId
    requires RecordOk(r) && r.approvalRef.None? && r.identity == e.mem.txs[txId].identity
    ensures txId != ""
    ensures NextOk(e.disk.wal.records, r) <==> BrokerMayEnter(e.mem.txs[txId].state, r.state)
  {
    hide SemanticsOk, Recovered, IndexComplete, AllKeyed, BrokerMayEnter;
    var records := e.disk.wal.records;
    TableHoldsLast(records, txId);
    var chain := RecordsOf(records, txId);
    var last := chain[|chain| - 1];
    assert last in records && last.txId == txId;
    var i :| 0 <= i < |records| && records[i] == last;
    assert records[i].approvalRef.None? && records[i].txId != "";
  }

  /** What a call commits in an exact state: a numbered, keyed record of a named transaction. */
  ghost predicate Lawful(e: Engine, r: WalRecord, entry: Option<IndexEntry>) {
    && r.seqNo == e.mem.nextSeq + 1 && r.txId != "" && r.approvalRef.None? && Keyed(r)
    && (r.idemKey.Some? ==> entry.Some? && Supports(r, entry.value))
  }

  lemma WorkIsLawful(hash: HashFunction, e: Engine, call: Call, env: Env)
    requires Exact(hash, e)
    requires call.Propose? ==> env.freshTxId != "" && RecordsOf(e.disk.wal.records, env.freshTxId) == []
    ensures var w := WorkFor(e, call, env);
      && !w.WritingBack?
      && (w.Committing? ==>
            && Lawful(e, w.record, w.entry)
            && (NextOk(e.disk.wal.records, w.record) <==>
                  (w.flow.Refusing? ==> call.txId in e.mem.txs && RefusableFrom(e.mem.txs[call.txId].state))))
  {
    hide DiskExact, LookupIn, SnapOf, NextOk, RecordsOf, TableOf;
    if call.Propose? || call.ApplyTx? {
      if KeyOf(call) !in e.mem.entries {
        assert Uncarried(e.disk.wal.records, KeyOf(call));
        UncarriedIsMissing(e.disk.wal.records, KeyOf(call), call.fingerprint);
      }
    }
    var w := WorkFor(e, call, env);
    if w.Committing? {
      if call.Propose? {
        FirstRecordOk(e.disk.wal.records, w.record);
      } else {
        StepLinks(hash, e, call.txId, w.record);
      }
    }
  }

  lemma FirstRecordOk(records: seq<WalRecord>, r: WalRecord)
    requires RecordsOf(records, r.txId) == [] && RecordOk(r) && r.state.Proposed?
    ensures NextOk(records, r)
  {
  }

  // ----- Legal runs stay exact -----

  lemma OneForOneExtended(records: seq<WalRecord>, lines: seq<StoredEvent>, r: WalRecord)
    requires OneForOne(records, lines) && r.txId != ""
    ensures OneForOne(records + [r], lines + [EventFor(|records| + 1, r)])
  {
  }

  lemma KeysExtended(
    records: seq<WalRecord>, entries: map<IdemKey, IndexEntry>, r: WalRecord, entry: Option<IndexEntry>)
    requires IndexComplete(records, entries) && AllKeyed(records) && Keyed(r)
    requires r.idemKey.Some? ==> entry.Some? && Supports(r, entry.value)
    ensures AllKeyed(records + [r])
    ensures IndexComplete(records + [r], if entry.None? then entries else entries[entry.value.key := entry.value])
  {
    var after := records + [r];
    forall i, key | 0 <= i < |after| && Carries(after[i], key)
      ensures key in (if entry.None? then entries else entries[entry.value.key := entry.value])
    {
      if i < |records| {
        assert after[i] == records[i];
      } else {
        CarriesOne(r, key, entry.value.key);
      }
    }
    forall i | 0 <= i < |after| ensures Keyed(after[i]) {
      assert i < |records| ==> after[i] == records[i];
    }
  }

  lemma ExtendedIsExact(hash: HashFunction, e: Engine, r: WalRecord, entry: Option<IndexEntry>, e': Engine)
    requires Exact(hash, e) && Lawful(e, r, entry) && Extended(hash, e, r, entry, e') && Sound(e')
    ensures Exact(hash, e')
  {
    hide SemanticsOk, EventsMatch, OneForOne, IndexComplete, AllKeyed, TableOf, Recovered, EventFor, Keyed, SnapOf, EventsNumbered, Supports;
    OneForOneExtended(e.disk.wal.records, e.disk.events.lines, r);
    KeysExtended(e.disk.wal.records, e.mem.entries, r, entry);
    assert Named(hash, e'.disk.index);
  }

  lemma CommitKeepsExact(hash: HashFunction, flow: Flow, e: Engine, r: WalRecord, entry: Option<IndexEntry>)
    requires !flow.Stepping? ==> entry.Some?
    requires Exact(hash, e) && Lawful(e, r, entry) && NextOk(e.disk.wal.records, r)
    ensures Exact(hash, Commit(hash, flow, e, r, entry, NO_FAULTS).engine)
  {
    hide Commit, Sound, SemanticsOk, OneForOne, IndexComplete, AllKeyed, NextOk, TableOf, Recovered, CaughtUp, Extended, Keyed, Supports;
    ExactIsSound(hash, e);
    SoundIsReady(e);
    CompleteCommitExtends(hash, flow, e, r, entry);
    CommitKeepsNames(hash, flow, e, r, entry, NO_FAULTS);
    OneForOneCatchesUp(e.disk.wal.records, e.disk.events.lines, r.txId);
    var e' := Commit(hash, flow, e, r, entry, NO_FAULTS).engine;
    ReopensExactly(hash, e, r, entry, e', "");
    ExtendedIsExact(hash, e, r, entry, e');
  }

  lemma CommitKeepsNames(hash: HashFunction, flow: Flow, e: Engine, r: WalRecord, entry: Option<IndexEntry>, f: Faults)
    requires !flow.Stepping? ==> entry.Some?
    requires Named(hash, e.disk.index)
    ensures Named(hash, Commit(hash, flow, e, r, entry, f).engine.disk.index)
  {
    hide Commit, ApplyAll;
    CommitLeads(hash, flow, e, r, entry, f);
    StepsKeepNames(hash, e.disk, Commit(hash, flow, e, r, entry, f).trace);
  }

  lemma CallKeepsExact(hash: HashFunction, e: Engine, call: Call, env: Env)
    requires Exact(hash, e) && LegalCall(e, call, env)
    ensures Exact(hash, Perform(hash, e, call, env).engine)
  {
    hide Perform, WorkFor, Commit, Exact, NextOk, Lawful;
    CallDoesItsWork(hash, e, call, env, env.faults);
    WorkIsLawful(hash, e, call, env);
    match WorkFor(e, call, env) {
      case NoWork =>
      case Committing(flow, r, entry) => CommitKeepsExact(hash, flow, e, r, entry);
      case WritingBack(op, entry) =>
    }
  }

  lemma OpenKeepsExact(hash: HashFunction, disk: Disk, newLogId: string)
    requires DiskExact(hash, disk)
    ensures Exact(hash, Opened(hash, disk, newLogId))
  {
    hide SemanticsOk, EventsMatch, OneForOne, IndexComplete, AllKeyed, TableOf, Merged, Loaded, ConsistentWithCheckpoint;
    var records := disk.wal.records;
    RecoveredExactly(disk.wal);
    MaxOfNumbered(records);
    OneForOneMatches(records, disk.events.lines);
    OneForOneLength(records, disk.events.lines);
    MergedIsComplete(Loaded(hash, disk.index), records);
    IntactExactly(OpenedEvents(disk.events, newLogId), |records| + 1);
  }

  lemma MergedIsComplete(entries: map<IdemKey, IndexEntry>, records: seq<WalRecord>)
    requires AllKeyed(records)
    ensures IndexComplete(records, Merged(entries, records))
  {
    hide Merged;
    MergedExactly(entries, records);
    forall i, key | 0 <= i < |records| && Carries(records[i], key) ensures key in Merged(entries, records) {
      assert Keyed(records[i]);
      CarriesOne(records[i], key, MergeEntry(records[i]).value.key);
    }
  }

  ghost predicate LegalStep(sys: System, a: Action) {
    match a
    case Start(_) => true
    case Stop => true
    case Serve(call, env) => sys.Up? ==> LegalCall(sys.engine, call, env)
    case CrashIn(_, _, _) => false
  }

  ghost predicate LegalRun(hash: HashFunction, actions: seq<Action>) {
    actions == [] ||
    (LegalRun(hash, actions[..|actions| - 1]) && LegalStep(FromFresh(hash, actions[..|actions| - 1]), actions[|actions| - 1]))
  }

  lemma StepKeepsExact(hash: HashFunction, sys: System, a: Action)
    requires Named(hash, DiskOf(sys).index) && SystemExact(hash, sys) && LegalStep(sys, a)
    ensures SystemExact(hash, Step(hash, sys, a))
  {
    hide Perform, Opened, LegalCall, SemanticsOk, OneForOne, IndexComplete, AllKeyed, Recovered;
    match a {
      case Stop =>
      case Start(newLogId) =>
        if sys.Down? {
          OpenKeepsExact(hash, sys.disk, newLogId);
        }
      case Serve(call, env) =>
        if sys.Up? {
          CallKeepsExact(hash, sys.engine, call, env);
        }
    }
  }

  lemma FreshIsExact(hash: HashFunction)
    ensures SystemExact(hash, Down(FRESH_DISK))
  {
    assert forall tx :: ChainOf([], tx) == [];
  }

  /**
   In every legal fault-free run, restarts included, the log's chains are legal and the events
   match its records one for one.
   */
  lemma {:induction false} LegalRunsStayExact(hash: HashFunction, actions: seq<Action>)
    requires LegalRun(hash, actions)
    ensures SystemExact(hash, FromFresh(hash, actions))
  {
    hide Step, SystemExact, LegalStep;
    if actions == [] {
      FreshIsExact(hash);
    } else {
      LegalRunsStayExact(hash, actions[..|actions| - 1]);
      StepKeepsExact(hash, FromFresh(hash, actions[..|actions| - 1]), actions[|actions| - 1]);
    }
  }

  /** Reopening after such a run is never refused, and rebuilds the table and both next numbers. */
  lemma ReopeningRebuilds(hash: HashFunction, actions: seq<Action>, newLogId: string)
    requires LegalRun(hash, actions) && FromFresh(hash, actions).Up?
    ensures var sys := FromFresh(hash, actions);
      && var (live, reopened) := (sys.engine.mem, Step(hash, Step(hash, sys, Stop), Start(newLogId)).engine.mem);
      && !reopened.safeMode && reopened.txs == live.txs
      && reopened.nextSeq == live.nextSeq && reopened.eventMeta == live.eventMeta
  {
    hide Opened, SemanticsOk, OneForOne, IndexComplete, AllKeyed, Recovered, TableOf, Run;
    LegalRunsStayExact(hash, actions);
    var e := FromFresh(hash, actions).engine;
    OpenKeepsExact(hash, e.disk, newLogId);
    OpenedKeepsMeta(hash, e.disk, newLogId);
  }

  lemma OpenedKeepsMeta(hash: HashFunction, disk: Disk, newLogId: string)
    requires Named(hash, disk.index)
    ensures var o := Opened(hash, disk, newLogId);
      o.disk == disk.(events := OpenedEvents(disk.events, newLogId)) && o.disk.events.meta == Some(o.mem.eventMeta)
  {
    hide SemanticsOk, EventsMatch, TableOf, Merged, Loaded, Recovered, Intact;
  }

  /** Each transaction's records form a path of the transition table, with matching events. */
  lemma ChainsAndEventsMatch(hash: HashFunction, actions: seq<Action>, tx: string)
    requires LegalRun(hash, actions)
    ensures var d := DiskOf(FromFresh(hash, actions));
      && var chain := RecordsOf(d.wal.records, tx);
      && ChainOk(chain) && |chain| <= 4
      && (forall i :: 0 <= i < |chain| ==> BrokerOwned(chain[i].state) && chain[i].identity == chain[0].identity)
      && EventStates(d.events.lines, tx) == States(chain)
  {
    hide FromFresh, RecordsOf, ChainOf, EventStates, ChainOk;
    LegalRunsStayExact(hash, actions);
    var d := DiskOf(FromFresh(hash, actions));
    RecoveredExactly(d.wal);
    ChainOfNumbered(d.wal.records, tx);
    AcceptedChainsArePaths(d.wal.records, tx);
    assert ChainOk(ChainOf(d.wal.records, tx));
    OneForOneCatchesUp(d.wal.records, d.events.lines, tx);
  }
}
