/**
 Retried calls. Once the log carries a binding of agent, operation and key, every later call with
 that binding is answered from the stored result, or refused as a conflict, and adds no record:
 whether its index entry is intact, was lost, or was rebuilt when the engine was opened.
 */
module EngineIdempotency {
  import opened Wrappers
  import opened TxStates
  import opened Wal
  import opened Events
  import opened Idempotency
  import opened Recovery
  import opened EngineModel
  import opened EngineTraces
  import opened EngineRuns

  // ----- Records and entries -----

  /** A record with a key also holds a fingerprint and the result its state calls for, naming its own transaction. */
  predicate Keyed(r: WalRecord) {
    r.idemKey.Some? ==>
      && r.fingerprint.Some? && r.result.Some? && r.result.value.txId == r.txId
      && (if r.state.Proposed? then r.result.value.ProposeResult?
          else (r.state.Applying? || r.state.Rejected?) && r.result.value.StepResult? && r.result.value.state == r.state)
  }

  predicate AllKeyed(records: seq<WalRecord>) {
    forall i :: 0 <= i < |records| ==> Keyed(records[i])
  }

  /** No binding is carried twice. */
  ghost predicate Unique(records: seq<WalRecord>) {
    forall i, j, key :: 0 <= i < j < |records| && Carries(records[i], key) ==> !Carries(records[j], key)
  }

  predicate Agrees(entry: IndexEntry, r: WalRecord) {
    r.fingerprint == Some(entry.fingerprint) && r.result == Some(entry.result)
  }

  predicate Uncarried(records: seq<WalRecord>, key: IdemKey) {
    forall i :: 0 <= i < |records| ==> !Carries(records[i], key)
  }

  predicate EntryOk(records: seq<WalRecord>, entry: IndexEntry) {
    forall i :: 0 <= i < |records| && Carries(records[i], entry.key) ==> Agrees(entry, records[i])
  }

  /** A number below the limit was handed out and is missing. */
  predicate Gap(records: seq<WalRecord>, limit: nat) {
    exists m :: 1 <= m < limit && Absent(records, m)
  }

  /** An index file may disagree with a record only if recovery can never accept that record. */
  predicate FileOk(records: seq<WalRecord>, entry: IndexEntry) {
    forall i :: 0 <= i < |records| && Carries(records[i], entry.key) ==>
      Agrees(entry, records[i]) || Gap(records, records[i].seqNo)
  }

  predicate Supports(r: WalRecord, entry: IndexEntry) {
    Carries(r, entry.key) && Agrees(entry, r)
  }

  predicate Backed(records: seq<WalRecord>, entry: IndexEntry, limit: nat) {
    (exists i :: 0 <= i < |records| && Supports(records[i], entry)) || Gap(records, limit)
  }

  // ----- The invariant -----

  ghost predicate DiskKeys(hash: HashFunction, d: Disk) {
    && Named(hash, d.index) && Ordered(d.wal.records)
    && AllKeyed(d.wal.records) && Unique(d.wal.records)
    && forall h :: h in d.index ==> FileOk(d.wal.records, d.index[h])
  }

  /** Files not mirrored in memory agree with a record, or with none that recovery could accept. */
  ghost predicate MemoryKeys(e: Engine) {
    && Below(e.disk.wal.records, e.mem.nextSeq)
    && (forall key :: key in e.mem.entries ==> e.mem.entries[key].key == key && EntryOk(e.disk.wal.records, e.mem.entries[key]))
    && (forall h :: h in e.disk.index && e.disk.index[h].key !in e.mem.entries ==>
          Backed(e.disk.wal.records, e.disk.index[h], e.mem.nextSeq + 1))
  }

  ghost predicate KeyInv(hash: HashFunction, e: Engine) {
    DiskKeys(hash, e.disk) && (!e.mem.safeMode ==> MemoryKeys(e))
  }

  ghost predicate SystemKeys(hash: HashFunction, sys: System) {
    DiskKeys(hash, DiskOf(sys)) && (sys.Up? ==> KeyInv(hash, sys.engine))
  }

  // ----- Lookup -----

  /** With unique keys, the lookup finds the one record that carries the key, or nothing. */
  lemma {:induction false} LookupExactly(records: seq<WalRecord>, key: IdemKey, fingerprint: string)
    requires AllKeyed(records) && Unique(records)
    ensures LookupIn(records, key, fingerprint).Missing? <==> Uncarried(records, key)
    ensures forall i :: 0 <= i < |records| && Carries(records[i], key) ==>
              LookupIn(records, key, fingerprint) ==
                if records[i].fingerprint != Some(fingerprint) then Conflict
                else Found(IndexEntry(key, records[i].txId, fingerprint, records[i].result.value))
  {
    if records != [] {
      var n := |records| - 1;
      var init := records[..n];
      LookupExactly(init, key, fingerprint);
      assert Keyed(records[n]);
      forall i | 0 <= i < |records| && Carries(records[i], key)
        ensures LookupIn(records, key, fingerprint) ==
                if records[i].fingerprint != Some(fingerprint) then Conflict
                else Found(IndexEntry(key, records[i].txId, fingerprint, records[i].result.value))
      {
        if i < n {
          assert init[i] == records[i];
          assert !Carries(records[n], key);
        }
      }
      if Uncarried(records, key) {
        assert Uncarried(init, key);
      } else if Uncarried(init, key) {
        assert Carries(records[n], key);
      }
    }
  }

  // ----- Commits -----

  /** What a commit leaves of the index, in whatever way it ends. */
  ghost predicate IndexEnded(hash: HashFunction, e: Engine, entry: Option<IndexEntry>, e': Engine) {
    if entry.None? then e'.disk.index == e.disk.index && e'.mem.entries == e.mem.entries
    else
      var h, files := hash(entry.value.key), e.disk.index;
      && (e'.disk.index == files || e'.disk.index == files[h := entry.value] || e'.disk.index == files - {h})
      && (e'.mem.safeMode || e'.mem.entries == e.mem.entries || e'.mem.entries == e.mem.entries[entry.value.key := entry.value])
  }

  lemma UndoIndexEnds(
    hash: HashFunction, e: Engine, v: Outcome<()>, r: WalRecord, entry: Option<IndexEntry>, key: Option<IdemKey>,
    error: EngineError, f: Faults)
    requires IndexEnded(hash, e, entry, v.engine)
    requires key == None || (key == EntryKey(entry) && v.engine.mem.safeMode)
    ensures IndexEnded(hash, e, entry, Undo(hash, v, r, key, error, f).engine)
  {
    hide WalRun, Named;
    if entry.Some? {
      var h, files := hash(entry.value.key), e.disk.index;
      assert files[h := entry.value] - {h} == files - {h};
      assert files - {h} - {h} == files - {h};
    }
  }

  lemma RecordIndexEnds(hash: HashFunction, e: Engine, before: Engine, entry: IndexEntry, io: Io)
    requires before.disk.index == e.disk.index && before.mem.entries == e.mem.entries
    ensures IndexEnded(hash, e, Some(entry), RecordIdempotency(hash, before, entry, io).engine)
  {
  }

  lemma CommitIndexEnds(hash: HashFunction, flow: Flow, e: Engine, r: WalRecord, entry: Option<IndexEntry>, f: Faults)
    requires !flow.Stepping? ==> entry.Some?
    ensures IndexEnded(hash, e, entry, Commit(hash, flow, e, r, entry, f).engine)
  {
    hide Undo, WalRun, EventRun, InsertedFiles, RecordIdempotency;
    var p := PersistTransition(e, r, f.walIo);
    if p.reply.Ok? {
      if flow.Refusing? {
        var v := AppendStateEvent(p.engine, r.txId, r.state, f.eventIo);
        RecordIndexEnds(hash, e, v.engine, entry.value, f.indexIo);
      } else {
        var i := if entry.None? then Outcome(p.engine, Ok(()), []) else RecordIdempotency(hash, p.engine, entry.value, f.indexIo);
        if entry.Some? {
          RecordIndexEnds(hash, e, p.engine, entry.value, f.indexIo);
        }
        var i' := i.(trace := p.trace + i.trace);
        UndoIndexEnds(hash, e, i', r, entry, None, Storage, f);
        var v := AppendStateEvent(i.engine, r.txId, r.state, f.eventIo);
        if v.reply.Err? {
          UndoIndexEnds(hash, e, v.(trace := i'.trace + v.trace), r, entry, EntryKey(entry), SafeMode, f);
        }
      }
    }
  }

  /** The commits calls make: a fresh number, and a key only if neither index nor log has it. */
  ghost predicate Fresh(e: Engine, r: WalRecord, entry: Option<IndexEntry>) {
    && !e.mem.safeMode && r.seqNo == e.mem.nextSeq + 1 && Keyed(r)
    && (entry.None? ==> r.idemKey.None?)
    && (entry.Some? ==>
          && Supports(r, entry.value)
          && entry.value.key !in e.mem.entries
          && Uncarried(e.disk.wal.records, entry.value.key))
  }

  lemma CarriesOne(r: WalRecord, a: IdemKey, b: IdemKey)
    requires Carries(r, a) && Carries(r, b)
    ensures a == b
  {
  }

  lemma GapGrows(records: seq<WalRecord>, r: WalRecord, limit: nat, limit': nat)
    requires Gap(records, limit) && limit <= limit' && limit <= r.seqNo
    ensures Gap(records + [r], limit') && Gap(records, limit')
  {
    var m :| 1 <= m < limit && Absent(records, m);
    assert Absent(records + [r], m);
  }

  lemma AppendKeepsFile(records: seq<WalRecord>, r: WalRecord, entry: IndexEntry, nextSeq: nat)
    requires FileOk(records, entry) && Below(records, nextSeq) && r.seqNo == nextSeq + 1
    requires Carries(r, entry.key) ==> Agrees(entry, r) || Gap(records, nextSeq + 1)
    ensures FileOk(records + [r], entry)
  {
    var after := records + [r];
    forall i | 0 <= i < |after| && Carries(after[i], entry.key)
      ensures Agrees(entry, after[i]) || Gap(after, after[i].seqNo)
    {
      if i < |records| {
        assert after[i] == records[i];
        if !Agrees(entry, records[i]) {
          GapGrows(records, r, records[i].seqNo, records[i].seqNo);
        }
      } else if !Agrees(entry, r) {
        GapGrows(records, r, nextSeq + 1, nextSeq + 1);
      }
    }
  }

  /** The log part: keys stay unique, and old files stay in order with the longer log. */
  lemma AppendKeepsDisk(hash: HashFunction, e: Engine, r: WalRecord, entry: Option<IndexEntry>, d: Disk)
    requires KeyInv(hash, e) && Fresh(e, r, entry)
    requires d.wal.records == e.disk.wal.records + [r] && d.index == e.disk.index
    ensures DiskKeys(hash, d)
  {
    hide FileOk, Backed;
    var before, after := e.disk.wal.records, d.wal.records;
    forall i, j, key | 0 <= i < j < |after| && Carries(after[i], key) ensures !Carries(after[j], key) {
      assert after[i] == before[i];
      if j == |before| && Carries(r, key) {
        CarriesOne(r, key, entry.value.key);
      }
    }
    forall i | 0 <= i < |after| ensures Keyed(after[i]) {
      if i < |before| {
        assert after[i] == before[i];
      }
    }
    forall h | h in d.index ensures FileOk(after, d.index[h]) {
      if Carries(r, d.index[h].key) {
        CarriesOne(r, d.index[h].key, entry.value.key);
        UncarriedIsGap(before, d.index[h], e.mem.nextSeq + 1);
      }
      AppendKeepsFile(before, r, d.index[h], e.mem.nextSeq);
    }
  }

  lemma UncarriedIsGap(records: seq<WalRecord>, entry: IndexEntry, limit: nat)
    requires Backed(records, entry, limit) && Uncarried(records, entry.key)
    ensures Gap(records, limit)
  {
  }

  /** Storing the entry of a record that supports it, or removing a file, keeps the disk in order. */
  lemma IndexKeepsDisk(hash: HashFunction, d: Disk, entry: IndexEntry, d': Disk)
    requires DiskKeys(hash, d) && d'.wal == d.wal && FileOk(d.wal.records, entry)
    requires d'.index == d.index || d'.index == d.index[hash(entry.key) := entry] || d'.index == d.index - {hash(entry.key)}
    ensures DiskKeys(hash, d')
  {
    hide FileOk, Unique, AllKeyed, Ordered;
  }

  lemma NewEntryFits(records: seq<WalRecord>, r: WalRecord, entry: IndexEntry)
    requires Uncarried(records, entry.key) && Supports(r, entry)
    ensures EntryOk(records, entry) && EntryOk(records + [r], entry)
    ensures FileOk(records, entry) && FileOk(records + [r], entry)
  {
  }

  lemma CommitKeepsDisk(hash: HashFunction, e: Engine, r: WalRecord, entry: Option<IndexEntry>, f: Faults, e': Engine)
    requires KeyInv(hash, e) && Fresh(e, r, entry) && Ready(e)
    requires Ended(e, r, f, e') && IndexEnded(hash, e, entry, e')
    ensures DiskKeys(hash, e'.disk)
  {
    hide FileOk, MemoryKeys;
    var mid := e.disk.(wal := e'.disk.wal);
    assert DiskKeys(hash, mid) by {
      if mid.wal.records != e.disk.wal.records {
        AppendKeepsDisk(hash, e, r, entry, mid);
      }
    }
    if entry.Some? {
      NewEntryFits(e.disk.wal.records, r, entry.value);
      IndexKeepsDisk(hash, mid, entry.value, e'.disk);
    } else {
      assert e'.disk.index == mid.index;
    }
  }

  lemma BackedGrows(records: seq<WalRecord>, r: WalRecord, entry: IndexEntry, limit: nat)
    requires Backed(records, entry, limit) && limit <= r.seqNo
    ensures Backed(records + [r], entry, limit + 1) && Backed(records, entry, limit + 1)
  {
    if i :| 0 <= i < |records| && Supports(records[i], entry) {
      assert (records + [r])[i] == records[i];
    } else {
      GapGrows(records, r, limit, limit + 1);
    }
  }

  lemma NewFileBacked(records: seq<WalRecord>, r: WalRecord, entry: IndexEntry)
    requires Supports(r, entry) && 1 <= r.seqNo && Below(records, r.seqNo - 1)
    ensures Backed(records + [r], entry, r.seqNo + 1) && Backed(records, entry, r.seqNo + 1)
  {
    assert (records + [r])[|records|] == r;
    assert Absent(records, r.seqNo);
  }

  lemma CommitKeepsMemory(hash: HashFunction, e: Engine, r: WalRecord, entry: Option<IndexEntry>, f: Faults, e': Engine)
    requires KeyInv(hash, e) && Fresh(e, r, entry) && Ready(e)
    requires Ended(e, r, f, e') && IndexEnded(hash, e, entry, e') && !e'.mem.safeMode
    ensures MemoryKeys(e')
  {
    hide DiskKeys, EntryOk, Backed, TableOf, SnapOf;
    var before, after := e.disk.wal.records, e'.disk.wal.records;
    forall key | key in e'.mem.entries
      ensures e'.mem.entries[key].key == key && EntryOk(after, e'.mem.entries[key])
    {
      if entry.Some? {
        NewEntryFits(before, r, entry.value);
      }
      if key in e.mem.entries {
        OldEntryFits(before, r, entry, e.mem.entries[key]);
      }
    }
    forall h | h in e'.disk.index && e'.disk.index[h].key !in e'.mem.entries
      ensures Backed(after, e'.disk.index[h], e'.mem.nextSeq + 1)
    {
      var file := e'.disk.index[h];
      if entry.Some? && file == entry.value {
        NewFileBacked(before, r, file);
      } else {
        assert h in e.disk.index && e.disk.index[h] == file;
        BackedGrows(before, r, file, e.mem.nextSeq + 1);
      }
    }
  }

  lemma OldEntryFits(records: seq<WalRecord>, r: WalRecord, entry: Option<IndexEntry>, old_: IndexEntry)
    requires EntryOk(records, old_)
    requires r.idemKey.Some? ==> entry.Some? && Carries(r, entry.value.key) && entry.value.key != old_.key
    ensures EntryOk(records + [r], old_)
  {
    if Carries(r, old_.key) {
      CarriesOne(r, old_.key, entry.value.key);
    }
  }

  // ----- Calls -----

  /** The entry found in the log, and the record it was made from. */
  ghost predicate FoundIn(e: Engine, entry: IndexEntry) {
    && !e.mem.safeMode && entry.key !in e.mem.entries
    && exists i :: 0 <= i < |e.disk.wal.records| && Supports(e.disk.wal.records[i], entry)
  }

  lemma WorkIsKeyed(hash: HashFunction, e: Engine, call: Call, env: Env)
    requires KeyInv(hash, e) && env.walReadable
    ensures var w := WorkFor(e, call, env);
      && (w.Committing? ==> Fresh(e, w.record, w.entry))
      && (w.WritingBack? ==> FoundIn(e, w.found) && w.op == w.found.key.op)
  {
    hide FileOk, EntryOk, Backed, LookupIn, Named, SnapOf;
    if call.Propose? || call.ApplyTx? {
      var records, key := e.disk.wal.records, KeyOf(call);
      LookupExactly(records, key, call.fingerprint);
      if LookupIn(records, key, call.fingerprint).Found? {
        var i :| 0 <= i < |records| && Carries(records[i], key);
        assert Supports(records[i], LookupIn(records, key, call.fingerprint).entry);
      }
    }
  }

  lemma SupportedEntryFits(records: seq<WalRecord>, entry: IndexEntry, i: nat)
    requires i < |records| && Supports(records[i], entry) && Unique(records)
    ensures EntryOk(records, entry) && FileOk(records, entry)
  {
    forall j | 0 <= j < |records| && Carries(records[j], entry.key) ensures j == i {
    }
  }

  lemma WriteBackEnds(hash: HashFunction, e: Engine, op: Operation, entry: IndexEntry, f: Faults)
    ensures var e' := ReplayFound(hash, e, op, entry, f).engine;
      && e'.disk.wal == e.disk.wal && e'.mem.nextSeq == e.mem.nextSeq
      && (e'.disk.index == e.disk.index || e'.disk.index == e.disk.index[hash(entry.key) := entry])
      && (e'.mem.entries == e.mem.entries || e'.mem.entries == e.mem.entries[entry.key := entry])
  {
    hide EventRun;
  }

  lemma WriteBackKeeps(hash: HashFunction, e: Engine, entry: IndexEntry, f: Faults)
    requires KeyInv(hash, e) && FoundIn(e, entry)
    ensures KeyInv(hash, ReplayFound(hash, e, entry.key.op, entry, f).engine)
  {
    hide EntryOk, FileOk, Backed, Unique, Ordered, AllKeyed, Below, Named, ReplayFound;
    var records := e.disk.wal.records;
    var i :| 0 <= i < |records| && Supports(records[i], entry);
    SupportedEntryFits(records, entry, i);
    EntryBacked(records, entry, i, e.mem.nextSeq + 1);
    WriteBackEnds(hash, e, entry.key.op, entry, f);
    var e' := ReplayFound(hash, e, entry.key.op, entry, f).engine;
    IndexKeepsDisk(hash, e.disk, entry, e'.disk);
  }

  lemma EntryBacked(records: seq<WalRecord>, entry: IndexEntry, i: nat, limit: nat)
    requires i < |records| && Supports(records[i], entry)
    ensures Backed(records, entry, limit)
  {
  }

  lemma CallKeepsKeys(hash: HashFunction, e: Engine, call: Call, env: Env)
    requires KeyInv(hash, e) && env.walReadable
    ensures KeyInv(hash, Perform(hash, e, call, env).engine)
  {
    hide Perform, WorkFor, Commit, ReplayFound, FileOk, EntryOk, Backed, Unique, AllKeyed, SnapOf, TableOf, Supports, Uncarried;
    CallDoesItsWork(hash, e, call, env, env.faults);
    WorkIsKeyed(hash, e, call, env);
    match WorkFor(e, call, env) {
      case NoWork =>
      case Committing(flow, r, entry) =>
        CommitEnds(hash, flow, e, r, entry, env.faults);
        CommitIndexEnds(hash, flow, e, r, entry, env.faults);
        var e' := Commit(hash, flow, e, r, entry, env.faults).engine;
        CommitKeepsDisk(hash, e, r, entry, env.faults, e');
        if !e'.mem.safeMode {
          CommitKeepsMemory(hash, e, r, entry, env.faults, e');
        }
      case WritingBack(op, entry) => WriteBackKeeps(hash, e, entry, env.faults);
    }
  }

  // ----- Opening -----

  lemma MergeEntrySupports(r: WalRecord)
    requires Keyed(r) && MergeEntry(r).Some?
    ensures Supports(r, MergeEntry(r).value)
  {
  }

  lemma NumberedHasNoGap(records: seq<WalRecord>, limit: nat)
    requires Numbered(records) && limit <= |records| + 1
    ensures !Gap(records, limit)
  {
    NumberedMissesNone(records);
  }

  lemma LoadedFileFits(records: seq<WalRecord>, entry: IndexEntry)
    requires Numbered(records) && FileOk(records, entry)
    ensures EntryOk(records, entry)
  {
    forall i | 0 <= i < |records| && Carries(records[i], entry.key) ensures Agrees(entry, records[i]) {
      NumberedHasNoGap(records, records[i].seqNo);
    }
  }

  lemma OpenedKeys(hash: HashFunction, disk: Disk, newLogId: string)
    requires Named(hash, disk.index)
    ensures var e := Opened(hash, disk, newLogId);
      && e.disk.wal == disk.wal && e.disk.index == disk.index
      && (!e.mem.safeMode ==>
            && Recovered(disk.wal).Some? && e.mem.nextSeq == MaxSeq(disk.wal.records)
            && e.mem.entries == Merged(Loaded(hash, disk.index), disk.wal.records))
  {
    hide Merged, Loaded, TableOf, SemanticsOk, EventsMatch, Intact, ConsistentWithCheckpoint, MaxSeq;
  }

  lemma OpenKeepsKeys(hash: HashFunction, disk: Disk, newLogId: string)
    requires DiskKeys(hash, disk)
    ensures KeyInv(hash, Opened(hash, disk, newLogId))
  {
    hide FileOk, EntryOk, Backed, Unique, AllKeyed, Merged, Loaded, Opened;
    OpenedKeys(hash, disk, newLogId);
    if !Opened(hash, disk, newLogId).mem.safeMode {
      RecoveredExactly(disk.wal);
      MaxOfNumbered(disk.wal.records);
      OpenedEntriesFit(hash, disk);
    }
  }

  lemma OpenedEntriesFit(hash: HashFunction, disk: Disk)
    requires DiskKeys(hash, disk) && Numbered(disk.wal.records)
    ensures var entries := Merged(Loaded(hash, disk.index), disk.wal.records);
      && (forall key :: key in entries ==> entries[key].key == key && EntryOk(disk.wal.records, entries[key]))
      && (forall h :: h in disk.index ==> disk.index[h].key in entries)
  {
    hide FileOk, EntryOk, Merged, MergeEntry, Supports;
    var records, files := disk.wal.records, Loaded(hash, disk.index);
    MergedExactly(files, records);
    var entries := Merged(files, records);
    forall key | key in entries ensures entries[key].key == key && EntryOk(records, entries[key]) {
      if key in files {
        var h :| h in disk.index && disk.index[h].key == key;
        LoadedFileFits(records, disk.index[h]);
      } else {
        var i :| 0 <= i < |records| && MergeEntry(records[i]) == Some(entries[key]) && entries[key].key == key;
        MergeEntrySupports(records[i]);
        SupportedEntryFits(records, entries[key], i);
      }
    }
    forall h | h in disk.index ensures disk.index[h].key in entries {
      assert disk.index[h].key in files;
    }
  }

  // ----- Runs -----

  /** The log could be listed whenever a call looked a key up in it. */
  predicate Readable(actions: seq<Action>) {
    forall i :: 0 <= i < |actions| ==> ReadableAction(actions[i])
  }

  predicate ReadableAction(a: Action) {
    (a.Serve? || a.CrashIn?) ==> a.env.walReadable
  }

  lemma StepKeepsKeys(hash: HashFunction, sys: System, a: Action)
    requires SystemKeys(hash, sys) && ReadableAction(a)
    ensures SystemKeys(hash, Step(hash, sys, a))
  {
    hide Perform, Opened, CrashDisk, DiskKeys, MemoryKeys;
    DiskKeysAreNamed(hash, DiskOf(sys));
    match a {
      case Stop =>
      case Start(newLogId) =>
        if sys.Down? {
          OpenKeepsKeys(hash, sys.disk, newLogId);
        }
      case Serve(call, env) =>
        if sys.Up? {
          CallKeepsKeys(hash, sys.engine, call, env);
        }
      case CrashIn(call, env, after) =>
        if sys.Up? {
          var f := CrashDiskIsFaultDisk(hash, sys.engine, call, env, after);
          CallKeepsKeys(hash, sys.engine, call, env.(faults := f));
        }
    }
  }

  lemma DiskKeysAreNamed(hash: HashFunction, d: Disk)
    requires DiskKeys(hash, d)
    ensures Named(hash, d.index)
  {
  }

  lemma FreshKeys(hash: HashFunction)
    ensures SystemKeys(hash, Down(FRESH_DISK))
  {
  }

  lemma {:induction false} RunsKeepKeys(hash: HashFunction, actions: seq<Action>)
    requires Readable(actions)
    ensures SystemKeys(hash, FromFresh(hash, actions))
  {
    hide Step, SystemKeys;
    if actions == [] {
      FreshKeys(hash);
    } else {
      RunsKeepKeys(hash, actions[..|actions| - 1]);
      StepKeepsKeys(hash, FromFresh(hash, actions[..|actions| - 1]), actions[|actions| - 1]);
    }
  }

  // ----- Retried calls -----

  /** The stored outcome, told as the call tells it. */
  function StoredReply(call: Call, r: WalRecord): Result<Reply, EngineError>
    requires call.Propose? || call.ApplyTx?
    requires r.result.Some?
  {
    if r.fingerprint != Some(call.fingerprint) then Err(IdempotencyConflict) else Replayed(KeyOf(call).op, r.result.value)
  }

  predicate IndexWritesSucceed(f: Faults) {
    f.indexIo.Completed? && f.eventIo.Completed?
  }

  lemma RetryInOneState(hash: HashFunction, e: Engine, call: Call, env: Env, i: nat)
    requires KeyInv(hash, e) && !e.mem.safeMode && env.walReadable
    requires call.Propose? || call.ApplyTx?
    requires i < |e.disk.wal.records| && Carries(e.disk.wal.records[i], KeyOf(call))
    ensures e.disk.wal.records[i].result.Some?
    ensures var o := Perform(hash, e, call, env);
      && o.engine.disk.wal == e.disk.wal
      && (o.reply == StoredReply(call, e.disk.wal.records[i])
          || (!IndexWritesSucceed(env.faults) && KeyOf(call) !in e.mem.entries && (o.reply == Err(Storage) || o.reply == Err(SafeMode))))
  {
    hide EventRun, InsertedFiles, LookupIn, Commit, Unique, FileOk, Backed, Ordered, Named;
    var records, key := e.disk.wal.records, KeyOf(call);
    assert Keyed(records[i]);
    LookupExactly(records, key, call.fingerprint);
    if key in e.mem.entries {
      assert EntryOk(records, e.mem.entries[key]);
      assert Agrees(e.mem.entries[key], records[i]);
    }
  }

  lemma CallGrowsLog(hash: HashFunction, e: Engine, call: Call, env: Env)
    requires KeyInv(hash, e) && env.walReadable
    ensures e.disk.wal.records <= Perform(hash, e, call, env).engine.disk.wal.records
  {
    hide Perform, WorkFor, Commit, ReplayFound, FileOk, EntryOk, Backed, Unique, AllKeyed, Uncarried;
    CallDoesItsWork(hash, e, call, env, env.faults);
    WorkIsKeyed(hash, e, call, env);
    match WorkFor(e, call, env) {
      case NoWork =>
      case Committing(flow, r, entry) => CommitEnds(hash, flow, e, r, entry, env.faults);
      case WritingBack(op, entry) => WriteBackLeavesLog(hash, e, op, entry, env.faults);
    }
  }

  lemma StepGrowsLog(hash: HashFunction, sys: System, a: Action)
    requires SystemKeys(hash, sys) && ReadableAction(a)
    ensures DiskOf(sys).wal.records <= DiskOf(Step(hash, sys, a)).wal.records
  {
    hide Perform, CrashDisk, FileOk, MemoryKeys;
    match a {
      case Stop =>
      case Start(newLogId) =>
        if sys.Down? {
          OpenLeavesLog(hash, sys.disk, newLogId);
        }
      case Serve(call, env) =>
        if sys.Up? {
          CallGrowsLog(hash, sys.engine, call, env);
        }
      case CrashIn(call, env, after) =>
        if sys.Up? {
          var f := CrashDiskIsFaultDisk(hash, sys.engine, call, env, after);
          CallGrowsLog(hash, sys.engine, call, env.(faults := f));
        }
    }
  }

  /** A finished action never takes a record away that was there before it. */
  lemma {:induction false} LogOnlyGrows(hash: HashFunction, actions: seq<Action>, first: nat)
    requires Readable(actions) && first <= |actions|
    ensures DiskOf(FromFresh(hash, actions[..first])).wal.records <= DiskOf(FromFresh(hash, actions)).wal.records
  {
    hide Step, SystemKeys;
    if first == |actions| {
      assert actions[..first] == actions;
    } else {
      var init := actions[..|actions| - 1];
      LogOnlyGrows(hash, init, first);
      assert init[..first] == actions[..first];
      RunsKeepKeys(hash, init);
      StepGrowsLog(hash, FromFresh(hash, init), actions[|actions| - 1]);
    }
  }

  /**
   Once a record carries a binding, every later call with it (after any faults, crashes and
   restarts, outside safe mode) is answered with that record's result, or as a conflict if its
   parameters differ, and leaves the log as it is.
   */
  lemma CarriedKeyIsReplayed(hash: HashFunction, actions: seq<Action>, first: nat, i: nat, call: Call, env: Env)
    requires Readable(actions) && first <= |actions| && env.walReadable
    requires call.Propose? || call.ApplyTx?
    requires var records := DiskOf(FromFresh(hash, actions[..first])).wal.records;
      i < |records| && Carries(records[i], KeyOf(call)) && records[i].result.Some?
    requires FromFresh(hash, actions).Up? && !FromFresh(hash, actions).engine.mem.safeMode
    ensures var r := DiskOf(FromFresh(hash, actions[..first])).wal.records[i];
      && var e := FromFresh(hash, actions).engine;
      && var o := Perform(hash, e, call, env);
      && o.engine.disk.wal == e.disk.wal
      && (IndexWritesSucceed(env.faults) || KeyOf(call) in e.mem.entries ==> o.reply == StoredReply(call, r))
      && (o.reply == StoredReply(call, r) || o.reply == Err(Storage) || o.reply == Err(SafeMode))
  {
    hide Perform, Run, DiskKeys, MemoryKeys, Replayed;
    RunsKeepKeys(hash, actions);
    LogOnlyGrows(hash, actions, first);
    RetryInOneState(hash, FromFresh(hash, actions).engine, call, env, i);
  }

  /** No run, with whatever faults and crashes, leaves two records with one binding. */
  lemma NoBindingTwice(hash: HashFunction, actions: seq<Action>)
    requires Readable(actions)
    ensures Unique(DiskOf(FromFresh(hash, actions)).wal.records)
  {
    hide Run, FileOk, Named;
    RunsKeepKeys(hash, actions);
  }

  // ----- Acknowledged calls -----

  /** A commit that succeeds has added its record and nothing else. */
  lemma CommitOkAppends(hash: HashFunction, flow: Flow, e: Engine, r: WalRecord, entry: Option<IndexEntry>, f: Faults)
    requires !flow.Stepping? ==> entry.Some?
    requires Ready(e) && r.seqNo == e.mem.nextSeq + 1
    requires Commit(hash, flow, e, r, entry, f).reply.Ok?
    ensures Commit(hash, flow, e, r, entry, f).engine.disk.wal.records == e.disk.wal.records + [r]
  {
    hide WalRun, EventRun, InsertedFiles, SnapOf, PersistTransition;
    PersistEffect(e, r, f.walIo);
    PersistFails(e, r, f.walIo);
  }

  lemma PersistFails(e: Engine, r: WalRecord, io: Io)
    requires !e.mem.safeMode
    ensures PersistTransition(e, r, io).reply.Ok? <==> io.Completed?
  {
  }

  /** A call that did its work and told the client so. */
  predicate Acknowledged(hash: HashFunction, e: Engine, call: Call, env: Env) {
    && (call.Propose? || call.ApplyTx?) && WorkFor(e, call, env).Committing?
    && (Perform(hash, e, call, env).reply.Ok? || Perform(hash, e, call, env).reply == Err(BaseRevisionMoved))
  }

  lemma AcknowledgedIsCarried(hash: HashFunction, e: Engine, call: Call, env: Env)
    requires KeyInv(hash, e) && env.walReadable && Acknowledged(hash, e, call, env)
    ensures var o, r := Perform(hash, e, call, env), WorkFor(e, call, env).record;
      && o.engine.disk.wal.records == e.disk.wal.records + [r]
      && Carries(r, KeyOf(call)) && r.result.Some? && StoredReply(call, r) == o.reply
  {
    hide Perform, WorkFor, Commit, FileOk, EntryOk, Backed, Unique, AllKeyed, Uncarried, LookupIn;
    WorkIsKeyed(hash, e, call, env);
    CallDoesItsWork(hash, e, call, env, env.faults);
    CommittingReply(hash, e, call, env);
    var Committing(flow, r, entry) := WorkFor(e, call, env);
    CommitOkAppends(hash, flow, e, r, entry, env.faults);
  }

  /** A committing call reports the commit's error, or its own stored outcome. */
  lemma CommittingReply(hash: HashFunction, e: Engine, call: Call, env: Env)
    requires call.Propose? || call.ApplyTx?
    requires WorkFor(e, call, env).Committing?
    ensures WellFormed(WorkFor(e, call, env))
    ensures var Committing(flow, r, entry) := WorkFor(e, call, env);
      && Carries(r, KeyOf(call)) && r.result.Some?
      && var o := Commit(hash, flow, e, r, entry, env.faults);
      Perform(hash, e, call, env).reply == if o.reply.Err? then Err(o.reply.error) else StoredReply(call, r)
    ensures var Committing(flow, r, entry) := WorkFor(e, call, env);
      var o := Commit(hash, flow, e, r, entry, env.faults);
      o.reply.Err? ==> o.reply.error != BaseRevisionMoved
  {
    hide LookupIn, SnapOf, WalRun, EventRun, InsertedFiles, RemoveIdempotency;
  }

  /**
   A client that retries an acknowledged call gets the very same answer, and nothing is done
   twice, however many faults, crashes and restarts lie between.
   */
  lemma RetryReturnsSameReply(
    hash: HashFunction, before: seq<Action>, call: Call, env: Env, between: seq<Action>, retryEnv: Env)
    requires Readable(before + [Serve(call, env)] + between) && retryEnv.walReadable && IndexWritesSucceed(retryEnv.faults)
    requires FromFresh(hash, before).Up? && Acknowledged(hash, FromFresh(hash, before).engine, call, env)
    requires var sys := FromFresh(hash, before + [Serve(call, env)] + between);
      sys.Up? && !sys.engine.mem.safeMode
    ensures var e := FromFresh(hash, before + [Serve(call, env)] + between).engine;
      && var retry := Perform(hash, e, call, retryEnv);
      && retry.reply == Perform(hash, FromFresh(hash, before).engine, call, env).reply
      && retry.engine.disk.wal == e.disk.wal
  {
    hide Perform, WorkFor, DiskKeys, MemoryKeys, Carries, StoredReply;
    var upTo, actions := before + [Serve(call, env)], before + [Serve(call, env)] + between;
    assert actions[..|before|] == before && actions[..|upTo|] == upTo && upTo[..|before|] == before;
    assert ReadableAction(actions[|before|]);
    PrefixReadable(actions, |before|);
    RunsKeepKeys(hash, before);
    var e := FromFresh(hash, before).engine;
    AcknowledgedIsCarried(hash, e, call, env);
    assert FromFresh(hash, upTo) == Step(hash, FromFresh(hash, before), Serve(call, env));
    var records := DiskOf(FromFresh(hash, upTo)).wal.records;
    assert records[|records| - 1] == WorkFor(e, call, env).record;
    CarriedKeyIsReplayed(hash, actions, |upTo|, |records| - 1, call, retryEnv);
  }

  lemma PrefixReadable(actions: seq<Action>, n: nat)
    requires Readable(actions) && n <= |actions|
    ensures Readable(actions[..n])
  {
  }
}
