/** Validation of recovered WAL records, their cross-check against events, and the rebuilt table. */
module Recovery {
  import opened Wrappers
  import opened TxStates
  import opened Wal
  import opened Events

  const SUPPORTED_RECORD_VERSION: nat := 1

  // ----- Chains -----

  function RecordsOf(records: seq<WalRecord>, tx: string): (chain: seq<WalRecord>)
    ensures forall i :: 0 <= i < |chain| ==> chain[i] in records && chain[i].txId == tx
  {
    if records == [] then []
    else
      var before := RecordsOf(records[..|records| - 1], tx);
      if records[|records| - 1].txId == tx then before + [records[|records| - 1]] else before
  }

  function InsertBySeq(sorted: seq<WalRecord>, r: WalRecord): seq<WalRecord> {
    if sorted == [] || sorted[|sorted| - 1].seqNo <= r.seqNo then sorted + [r]
    else InsertBySeq(sorted[..|sorted| - 1], r) + [sorted[|sorted| - 1]]
  }

  /** The library's stable sort by sequence number. */
  function SortBySeq(records: seq<WalRecord>): seq<WalRecord> {
    if records == [] then [] else InsertBySeq(SortBySeq(records[..|records| - 1]), records[|records| - 1])
  }

  function ChainOf(records: seq<WalRecord>, tx: string): seq<WalRecord> {
    SortBySeq(RecordsOf(records, tx))
  }

  predicate LinkOk(prev: WalRecord, next: WalRecord) {
    && prev.identity == next.identity && prev.approvalRef == next.approvalRef
    && BrokerMayEnter(prev.state, next.state)
  }

  predicate ChainOk(chain: seq<WalRecord>) {
    && (chain != [] ==> chain[0].state.Proposed?)
    && forall i :: 0 < i < |chain| ==> LinkOk(chain[i - 1], chain[i])
  }

  predicate RecordOk(r: WalRecord) {
    r.version == SUPPORTED_RECORD_VERSION && !WatchdogOwned(r.state)
  }

  /** What `validate_wal_semantics` accepts. */
  ghost predicate SemanticsOk(records: seq<WalRecord>) {
    && (forall i :: 0 <= i < |records| ==> RecordOk(records[i]))
    && forall tx :: ChainOk(ChainOf(records, tx))
  }

  // ----- Events -----

  function ParseTxState(payload: Payload): Option<(string, TxState)> {
    if payload.TxStatePayload? && payload.txId != "" then Some((payload.txId, payload.state)) else None
  }

  predicate EventReadable(e: StoredEvent) {
    e.kind == TX_STATE_KIND ==> ParseTxState(e.payload).Some?
  }

  function EventStates(events: seq<StoredEvent>, tx: string): seq<TxState> {
    if events == [] then []
    else
      var before, last := EventStates(events[..|events| - 1], tx), events[|events| - 1];
      if last.kind == TX_STATE_KIND && last.payload.TxStatePayload? && last.payload.txId == tx then before + [last.payload.state]
      else before
  }

  function States(chain: seq<WalRecord>): (states: seq<TxState>)
    ensures |states| == |chain|
    ensures forall i :: 0 <= i < |chain| ==> states[i] == chain[i].state
  {
    seq(|chain|, i requires 0 <= i < |chain| => chain[i].state)
  }

  /** What `validate_tx_state_events_against_wal` accepts: per transaction, events are a prefix of the WAL. */
  ghost predicate EventsMatch(records: seq<WalRecord>, events: seq<StoredEvent>) {
    && (forall i :: 0 <= i < |events| ==> EventReadable(events[i]))
    && forall tx :: tx != "" ==> EventStates(events, tx) <= States(ChainOf(records, tx))
  }

  // ----- The rebuilt table -----

  datatype TxSnapshot = TxSnapshot(txId: string, state: TxState, identity: Identity)
  type TxTable = map<string, TxSnapshot>

  function SnapOf(r: WalRecord): TxSnapshot {
    TxSnapshot(r.txId, r.state, r.identity)
  }

  function TableOf(records: seq<WalRecord>): TxTable {
    if records == [] then map[]
    else TableOf(records[..|records| - 1])[records[|records| - 1].txId := SnapOf(records[|records| - 1])]
  }

  // ----- The validators -----

  method ValidateChain(chain: seq<WalRecord>) returns (ok: bool)
    ensures ok == ChainOk(chain)
  {
    if |chain| == 0 {
      return true;
    }
    if !chain[0].state.Proposed? {
      return false;
    }
    for i := 1 to |chain|
      invariant forall j :: 0 < j < i ==> LinkOk(chain[j - 1], chain[j])
    {
      if chain[i - 1].identity != chain[i].identity || chain[i - 1].approvalRef != chain[i].approvalRef {
        return false;
      }
      if !BrokerMayEnter(chain[i - 1].state, chain[i].state) {
        return false;
      }
    }
    return true;
  }

  ghost predicate GroupsUpTo(chains: map<string, seq<WalRecord>>, records: seq<WalRecord>) {
    forall tx :: RecordsOf(records, tx) == if tx in chains then chains[tx] else []
  }

  method GroupByTx(records: seq<WalRecord>) returns (chains: map<string, seq<WalRecord>>)
    ensures GroupsUpTo(chains, records)
  {
    chains := map[];
    for i := 0 to |records|
      invariant GroupsUpTo(chains, records[..i])
    {
      assert records[..i + 1][..i] == records[..i];
      var r := records[i];
      assert RecordsOf(records[..i], r.txId) == if r.txId in chains then chains[r.txId] else [];
      var chain := if r.txId in chains then chains[r.txId] else [];
      chains := chains[r.txId := chain + [r]];
    }
    assert records[..|records|] == records;
  }

  method ValidateWalSemantics(records: seq<WalRecord>) returns (ok: bool)
    ensures ok == SemanticsOk(records)
  {
    for i := 0 to |records|
      invariant forall j :: 0 <= j < i ==> RecordOk(records[j])
    {
      if records[i].version != SUPPORTED_RECORD_VERSION || WatchdogOwned(records[i].state) {
        assert !RecordOk(records[i]);
        return false;
      }
    }
    var chains := GroupByTx(records);
    var left := chains.Keys;
    while left != {}
      invariant left <= chains.Keys
      invariant forall tx :: tx in chains.Keys - left ==> ChainOk(ChainOf(records, tx))
    {
      var tx :| tx in left;
      assert RecordsOf(records, tx) == chains[tx];
      var good := ValidateChain(SortBySeq(chains[tx]));
      if !good {
        assert !ChainOk(ChainOf(records, tx));
        return false;
      }
      left := left - {tx};
    }
    forall tx ensures ChainOk(ChainOf(records, tx)) {
      assert RecordsOf(records, tx) == if tx in chains then chains[tx] else [];
    }
    return true;
  }

  ghost predicate EventGroupsUpTo(groups: map<string, seq<TxState>>, events: seq<StoredEvent>) {
    && "" !in groups
    && forall tx :: tx != "" ==> EventStates(events, tx) == if tx in groups then groups[tx] else []
  }

  /** The states reported per transaction, or `None` at the first unreadable event. */
  method GroupEvents(events: seq<StoredEvent>) returns (groups: Option<map<string, seq<TxState>>>)
    ensures groups.Some? <==> forall i :: 0 <= i < |events| ==> EventReadable(events[i])
    ensures groups.Some? ==> EventGroupsUpTo(groups.value, events)
  {
    var out: map<string, seq<TxState>> := map[];
    for i := 0 to |events|
      invariant forall j :: 0 <= j < i ==> EventReadable(events[j])
      invariant EventGroupsUpTo(out, events[..i])
    {
      assert events[..i + 1][..i] == events[..i];
      var e := events[i];
      if e.kind == TX_STATE_KIND {
        var parsed := ParseTxState(e.payload);
        if parsed.None? {
          assert !EventReadable(events[i]);
          return None;
        }
        var (tx, state) := parsed.value;
        assert EventStates(events[..i], tx) == if tx in out then out[tx] else [];
        var states := if tx in out then out[tx] else [];
        out := out[tx := states + [state]];
      }
    }
    assert events[..|events|] == events;
    return Some(out);
  }

  method ValidateEventsAgainstWal(records: seq<WalRecord>, events: seq<StoredEvent>) returns (ok: bool)
    ensures ok == EventsMatch(records, events)
  {
    hide SortBySeq, EventStates;
    var chains := GroupByTx(records);
    var groups := GroupEvents(events);
    if groups.None? {
      return false;
    }
    var left := groups.value.Keys;
    while left != {}
      invariant left <= groups.value.Keys
      invariant forall tx :: tx in groups.value.Keys - left ==> EventStates(events, tx) <= States(ChainOf(records, tx))
    {
      var tx :| tx in left;
      assert RecordsOf(records, tx) == if tx in chains then chains[tx] else [];
      assert EventStates(events, tx) == groups.value[tx];
      var states := States(SortBySeq(if tx in chains then chains[tx] else []));
      if !(groups.value[tx] <= states) {
        return false;
      }
      left := left - {tx};
    }
    forall tx | tx != "" ensures EventStates(events, tx) <= States(ChainOf(records, tx)) {
      assert EventStates(events, tx) == if tx in groups.value then groups.value[tx] else [];
    }
    return true;
  }

  method RebuildTable(records: seq<WalRecord>) returns (txs: TxTable, nextSeq: nat)
    ensures txs == TableOf(records) && nextSeq == MaxSeq(records)
  {
    txs, nextSeq := map[], 0;
    for i := 0 to |records|
      invariant txs == TableOf(records[..i]) && nextSeq == MaxSeq(records[..i])
    {
      assert records[..i + 1][..i] == records[..i];
      txs := txs[records[i].txId := SnapOf(records[i])];
      nextSeq := if nextSeq < records[i].seqNo then records[i].seqNo else nextSeq;
    }
    assert records[..|records|] == records;
  }

  // ----- What acceptance means -----

  predicate SeqSorted(records: seq<WalRecord>) {
    forall i, j :: 0 <= i < j < |records| ==> records[i].seqNo <= records[j].seqNo
  }

  lemma {:induction false} SortOfSorted(records: seq<WalRecord>)
    requires SeqSorted(records)
    ensures SortBySeq(records) == records
  {
    hide InsertBySeq;
    if records != [] {
      var init, last := records[..|records| - 1], records[|records| - 1];
      SortOfSorted(init);
      InsertLast(init, last);
    }
  }

  lemma InsertLast(sorted: seq<WalRecord>, r: WalRecord)
    requires sorted == [] || sorted[|sorted| - 1].seqNo <= r.seqNo
    ensures InsertBySeq(sorted, r) == sorted + [r]
  {
  }

  lemma {:induction false} RecordsOfNumbered(records: seq<WalRecord>, tx: string)
    requires Numbered(records)
    ensures SeqSorted(RecordsOf(records, tx))
    ensures forall i :: 0 <= i < |RecordsOf(records, tx)| ==> RecordsOf(records, tx)[i].seqNo <= |records|
  {
    if records != [] {
      RecordsOfNumbered(records[..|records| - 1], tx);
    }
  }

  /** On the records recovery hands over, a chain is simply the transaction's records in order. */
  lemma ChainOfNumbered(records: seq<WalRecord>, tx: string)
    requires Numbered(records)
    ensures ChainOf(records, tx) == RecordsOf(records, tx)
  {
    RecordsOfNumbered(records, tx);
    SortOfSorted(RecordsOf(records, tx));
  }

  lemma {:induction false} ChainAdvances(chain: seq<WalRecord>)
    requires ChainOk(chain) && chain != []
    ensures |chain| <= Rank(chain[|chain| - 1].state)
    ensures forall i :: 0 <= i < |chain| ==> BrokerOwned(chain[i].state) && chain[i].identity == chain[0].identity
  {
    var n := |chain| - 1;
    if n > 0 {
      ChainAdvances(chain[..n]);
      assert LinkOk(chain[n - 1], chain[n]);
      TransitionsAdvance(chain[n - 1].state, chain[n].state);
    }
  }

  /** Every accepted chain is a path of the transition table: one to four broker-owned states, one identity. */
  lemma AcceptedChainsArePaths(records: seq<WalRecord>, tx: string)
    requires SemanticsOk(records)
    ensures var chain := ChainOf(records, tx);
      && |chain| <= 4
      && forall i :: 0 <= i < |chain| ==> BrokerOwned(chain[i].state) && chain[i].identity == chain[0].identity
  {
    var chain := ChainOf(records, tx);
    assert ChainOk(chain);
    if chain != [] {
      ChainAdvances(chain);
    }
  }

  function Stage(i: nat): TxState {
    if i == 0 then Proposed else if i == 1 then Testing else if i == 2 then Applying else Probation
  }

  /** The stages in order from the first; a rejection may stand last, after at least one of the first three. */
  predicate Path(states: seq<TxState>) {
    && |states| <= 4
    && forall i :: 0 <= i < |states| ==> states[i] == Stage(i) || (states[i] == Rejected && 0 < i == |states| - 1)
  }

  /** All records of the chain are of one owner, base and change, under one approval. */
  predicate OneIdentity(chain: seq<WalRecord>) {
    forall i :: 0 <= i < |chain| ==> chain[i].identity == chain[0].identity && chain[i].approvalRef == chain[0].approvalRef
  }

  predicate Follows(last: TxState, s: TxState) {
    || (last == Proposed && (s == Testing || s == Rejected))
    || (last == Testing && (s == Applying || s == Rejected))
    || (last == Applying && (s == Probation || s == Rejected))
  }

  lemma PathSnoc(states: seq<TxState>, s: TxState)
    ensures Path(states + [s]) <==>
            && Path(states)
            && (if states == [] then s == Proposed else Follows(states[|states| - 1], s))
  {
    var longer, n := states + [s], |states|;
    assert longer[n] == s;
    if Path(longer) {
      forall i | 0 <= i < n ensures states[i] == Stage(i) {
        assert longer[i] == states[i];
      }
    }
    if n > 0 && Path(states) {
      assert states[n - 1] == Stage(n - 1) || states[n - 1] == Rejected;
    }
  }

  /** A chain is accepted exactly when its states are a path and its records have one identity. */
  lemma {:induction false} ChainsExactly(chain: seq<WalRecord>)
    ensures ChainOk(chain) <==> Path(States(chain)) && OneIdentity(chain)
  {
    hide Path;
    if chain == [] {
      EmptyPath();
    } else {
      var n := |chain| - 1;
      var init := chain[..n];
      ChainsExactly(init);
      PathSnoc(States(init), chain[n].state);
      assert States(chain) == States(init) + [chain[n].state];
      ChainSnoc(chain);
      if n > 0 {
        assert States(init)[n - 1] == chain[n - 1].state;
        TableFollows(chain[n - 1].state, chain[n].state);
        if Path(States(init)) {
          PathIsBrokers(States(init));
        }
      }
    }
  }

  lemma TableFollows(from: TxState, to: TxState)
    ensures from != Idle ==> (BrokerMayEnter(from, to) <==> Follows(from, to))
  {
  }

  lemma EmptyPath()
    ensures Path(States([]))
  {
  }

  lemma ChainSnoc(chain: seq<WalRecord>)
    requires chain != []
    ensures var n := |chain| - 1;
      && (ChainOk(chain) <==> ChainOk(chain[..n]) && if n == 0 then chain[0].state == Proposed else LinkOk(chain[n - 1], chain[n]))
      && (OneIdentity(chain) <==>
            && OneIdentity(chain[..n])
            && (n > 0 ==> chain[n].identity == chain[n - 1].identity && chain[n].approvalRef == chain[n - 1].approvalRef))
  {
    var n := |chain| - 1;
    var init := chain[..n];
    if ChainOk(chain) {
      forall i | 0 < i < |init| ensures LinkOk(init[i - 1], init[i]) {
        assert LinkOk(chain[i - 1], chain[i]);
      }
    }
    if OneIdentity(chain) {
      assert forall i :: 0 <= i < |init| ==> init[i] == chain[i];
    }
  }

  /** Every transaction's records are a path of one identity. */
  ghost predicate PathsOnly(records: seq<WalRecord>) {
    forall tx :: Path(States(RecordsOf(records, tx))) && OneIdentity(RecordsOf(records, tx))
  }

  /**
   Numbered records are accepted exactly when they are of the supported version and every
   transaction's records are a path of one identity.
   */
  lemma SemanticsExactly(records: seq<WalRecord>)
    requires Numbered(records)
    ensures SemanticsOk(records) <==>
            && (forall i :: 0 <= i < |records| ==> records[i].version == 1)
            && PathsOnly(records)
  {
    hide ChainOf, RecordsOf, Path, OneIdentity, ChainOk;
    forall tx ensures ChainOk(ChainOf(records, tx)) <==> Path(States(RecordsOf(records, tx))) && OneIdentity(RecordsOf(records, tx)) {
      ChainOfNumbered(records, tx);
      ChainsExactly(RecordsOf(records, tx));
    }
    if forall tx :: ChainOk(ChainOf(records, tx)) {
      forall i | 0 <= i < |records| ensures !WatchdogOwned(records[i].state) {
        assert ChainOk(ChainOf(records, records[i].txId));
        IsRecordOf(records, i);
        var chain := RecordsOf(records, records[i].txId);
        var k :| 0 <= k < |chain| && chain[k] == records[i];
        PathIsBrokers(States(chain));
        assert States(chain)[k] == records[i].state;
      }
    } else {
      var tx :| !ChainOk(ChainOf(records, tx));
      assert !(Path(States(RecordsOf(records, tx))) && OneIdentity(RecordsOf(records, tx)));
    }
  }

  lemma PathIsBrokers(states: seq<TxState>)
    requires Path(states)
    ensures forall i :: 0 <= i < |states| ==> !WatchdogOwned(states[i]) && states[i] != Idle
  {
  }

  lemma {:induction false} IsRecordOf(records: seq<WalRecord>, i: nat)
    requires i < |records|
    ensures records[i] in RecordsOf(records, records[i].txId)
  {
    if i < |records| - 1 {
      IsRecordOf(records[..|records| - 1], i);
    }
  }

  /** The rebuilt table holds, for each transaction, its last record. */
  lemma {:induction false} TableHoldsLast(records: seq<WalRecord>, tx: string)
    ensures tx in TableOf(records) <==> RecordsOf(records, tx) != []
    ensures var chain := RecordsOf(records, tx);
      chain != [] ==> TableOf(records)[tx] == SnapOf(chain[|chain| - 1])
  {
    if records != [] {
      TableHoldsLast(records[..|records| - 1], tx);
    }
  }

  /** Adding a record extends its own transaction's chain and no other. */
  lemma ChainAfter(records: seq<WalRecord>, r: WalRecord, tx: string)
    ensures RecordsOf(records + [r], tx) == if tx == r.txId then RecordsOf(records, tx) + [r] else RecordsOf(records, tx)
    ensures TableOf(records + [r]) == TableOf(records)[r.txId := SnapOf(r)]
  {
    assert (records + [r])[..|records|] == records;
  }
}
