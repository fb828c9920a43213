/**
 The idempotency index: one file per binding, named by a hash of the binding's key, mirrored in
 memory and completed from the write-ahead log when it is opened.
 */
module Idempotency {
  import opened Wrappers
  import opened TxStates
  import opened Wal

  datatype Operation = ConfigPropose | TxApply
  datatype IdemKey = IdemKey(agentId: string, op: Operation, key: string)
  datatype IndexEntry = IndexEntry(key: IdemKey, txId: string, fingerprint: string, result: StoredResult)

  type HashFunction = IdemKey -> nat
  type IndexDisk = map<nat, IndexEntry>

  datatype IndexStep = WriteEntryTemp | RenameEntry(entry: IndexEntry) | RemoveEntry(key: IdemKey)

  /** Temporary files are ignored when the index is opened. */
  function IndexApply(hash: HashFunction, files: IndexDisk, step: IndexStep): IndexDisk {
    match step
    case WriteEntryTemp => files
    case RenameEntry(e) => files[hash(e.key) := e]
    case RemoveEntry(key) => files - {hash(key)}
  }

  function InsertedFiles(hash: HashFunction, files: IndexDisk, e: IndexEntry, io: Io): IndexDisk {
    if StepsDone(io, 2) < 2 then files else IndexApply(hash, files, RenameEntry(e))
  }

  function RemovedFiles(hash: HashFunction, files: IndexDisk, key: IdemKey, io: Io): IndexDisk {
    if StepsDone(io, 1) < 1 then files else IndexApply(hash, files, RemoveEntry(key))
  }

  /** Every file sits under the hash of its own key. */
  predicate Named(hash: HashFunction, files: IndexDisk) {
    forall h :: h in files ==> hash(files[h].key) == h
  }

  function Loaded(hash: HashFunction, files: IndexDisk): map<IdemKey, IndexEntry>
    requires Named(hash, files)
  {
    map h | h in files :: files[h].key := files[h]
  }

  /** Every file's key is there, and every entry was read from a file of its key. */
  predicate ReadFrom(files: IndexDisk, entries: map<IdemKey, IndexEntry>) {
    && (forall h :: h in files ==> files[h].key in entries)
    && forall k :: k in entries ==> exists h :: h in files && files[h] == entries[k] && files[h].key == k
  }

  lemma ReadFromNamed(hash: HashFunction, files: IndexDisk, entries: map<IdemKey, IndexEntry>)
    requires Named(hash, files) && ReadFrom(files, entries)
    ensures entries == Loaded(hash, files)
  {
    forall k ensures k in entries <==> k in Loaded(hash, files) {
      if k in Loaded(hash, files) {
        assert files[hash(k)].key in entries;
      }
    }
    forall k | k in entries ensures entries[k] == Loaded(hash, files)[k] {
      var h :| h in files && files[h] == entries[k] && files[h].key == k;
    }
  }

  /** What the files of a directory hold; `None` stands for one that cannot be read or parsed. */
  type IndexTexts = map<nat, Option<IndexEntry>>

  function Parsed(texts: IndexTexts): IndexDisk {
    map h | h in texts && texts[h].Some? :: texts[h].value
  }

  function TextsOf(files: IndexDisk): (texts: IndexTexts)
    ensures Parsed(texts) == files
  {
    map h | h in files :: Some(files[h])
  }

  /**
   Reads the index files in whatever order the directory lists them, and fails if any cannot be
   read. Whatever their names, each key gets an entry of one of its files; with names that match,
   exactly that file's.
   */
  method LoadAll(hash: HashFunction, texts: IndexTexts) returns (entries: Option<map<IdemKey, IndexEntry>>)
    ensures entries.None? <==> exists h :: h in texts && texts[h].None?
    ensures entries.Some? ==> ReadFrom(Parsed(texts), entries.value)
    ensures entries.Some? && Named(hash, Parsed(texts)) ==> entries.value == Loaded(hash, Parsed(texts))
  {
    hide Loaded;
    ghost var files := Parsed(texts);
    var loaded: map<IdemKey, IndexEntry> := map[];
    var names := texts.Keys;
    ghost var read: IndexDisk := map[];
    while names != {}
      invariant names !! read.Keys && names + read.Keys == texts.Keys
      invariant forall h :: h in read ==> texts[h] == Some(read[h])
      invariant ReadFrom(read, loaded)
    {
      var h :| h in names;
      if texts[h].None? {
        return None;
      }
      var e := texts[h].value;
      ReadOneMore(read, loaded, h, e);
      loaded := loaded[e.key := e];
      read := read[h := e];
      names := names - {h};
    }
    assert read == files;
    if Named(hash, files) {
      ReadFromNamed(hash, files, loaded);
    }
    return Some(loaded);
  }

  lemma ReadOneMore(files: IndexDisk, entries: map<IdemKey, IndexEntry>, h: nat, e: IndexEntry)
    requires ReadFrom(files, entries) && h !in files
    ensures ReadFrom(files[h := e], entries[e.key := e])
  {
    var files', entries' := files[h := e], entries[e.key := e];
    forall k | k in entries' ensures exists g :: g in files' && files'[g] == entries'[k] && files'[g].key == k {
      if k == e.key {
        assert files'[h] == entries'[k];
      } else {
        var g :| g in files && files[g] == entries[k] && files[g].key == k;
        assert files'[g] == entries'[k];
      }
    }
  }

  // ----- Bindings recorded in the log -----

  /** The operation whose binding a record of this state and result carries (`op_for_state`). */
  function OpForState(state: TxState, result: Option<StoredResult>): Option<Operation> {
    match state
    case Proposed => Some(ConfigPropose)
    case Applying => Some(TxApply)
    case Rejected => if ApplyRefusal(result) then Some(TxApply) else None
    case _ => None
  }

  predicate ApplyRefusal(result: Option<StoredResult>) {
    result.Some? && result.value.StepResult? && result.value.state.Rejected?
  }

  /** The index entry a record stands for when the index is completed from the log. */
  function MergeEntry(r: WalRecord): Option<IndexEntry> {
    if r.idemKey.None? || r.result.None? then None
    else
      var op := OpForState(r.state, r.result);
      if op.None? then None
      else
        var key := IdemKey(r.identity.agentId, op.value, r.idemKey.value);
        Some(IndexEntry(key, r.txId, r.fingerprint.GetOr(r.txId), r.result.value))
  }

  function Merged(entries: map<IdemKey, IndexEntry>, records: seq<WalRecord>): map<IdemKey, IndexEntry> {
    if records == [] then entries
    else
      var before := Merged(entries, records[..|records| - 1]);
      var e := MergeEntry(records[|records| - 1]);
      if e.None? || e.value.key in before then before else before[e.value.key := e.value]
  }

  /** Merging never changes an entry that was there, and adds only entries some record stands for. */
  lemma {:induction false} MergedExactly(entries: map<IdemKey, IndexEntry>, records: seq<WalRecord>)
    ensures var m := Merged(entries, records);
      && (forall k :: k in entries ==> k in m && m[k] == entries[k])
      && (forall k :: k in m && k !in entries ==>
            exists i :: 0 <= i < |records| && MergeEntry(records[i]) == Some(m[k]) && m[k].key == k)
      && (forall i :: 0 <= i < |records| && MergeEntry(records[i]).Some? ==> MergeEntry(records[i]).value.key in m)
  {
    if records != [] {
      var n := |records| - 1;
      var init := records[..n];
      MergedExactly(entries, init);
      var before, m := Merged(entries, init), Merged(entries, records);
      forall k | k in m && k !in entries
        ensures exists i :: 0 <= i < |records| && MergeEntry(records[i]) == Some(m[k]) && m[k].key == k
      {
        if k in before {
          var i :| 0 <= i < |init| && MergeEntry(init[i]) == Some(m[k]) && m[k].key == k;
          assert records[i] == init[i];
        } else {
          assert MergeEntry(records[n]) == Some(m[k]);
        }
      }
      forall i | 0 <= i < |records| && MergeEntry(records[i]).Some?
        ensures MergeEntry(records[i]).value.key in m
      {
        if i < n {
          assert init[i] == records[i];
        }
      }
    }
  }

  // ----- The store object -----

  class IdempotencyStore {
    const hash: HashFunction
    var files: IndexDisk
    var entries: map<IdemKey, IndexEntry>

    constructor Open(hash: HashFunction, files: IndexDisk)
      ensures this.hash == hash && this.files == files
      ensures ReadFrom(files, entries)
      ensures Named(hash, files) ==> entries == Loaded(hash, files)
    {
      this.hash := hash;
      this.files := files;
      var loaded := LoadAll(hash, TextsOf(files));
      entries := loaded.value;
    }

    method Get(key: IdemKey) returns (e: Option<IndexEntry>)
      ensures e == if key in entries then Some(entries[key]) else None
    {
      if key in entries {
        return Some(entries[key]);
      }
      return None;
    }

    /** The memory follows only when the file is in place and its directory synced. */
    method Insert(e: IndexEntry, io: Io) returns (ok: bool)
      modifies this
      ensures files == InsertedFiles(hash, old(files), e, io)
      ensures ok == io.Completed?
      ensures entries == if ok then old(entries)[e.key := e] else old(entries)
    {
      if StepsDone(io, 2) == 2 {
        files := IndexApply(hash, files, RenameEntry(e));
      }
      if io.FailedAfter? {
        return false;
      }
      entries := entries[e.key := e];
      return true;
    }

    /** Removes whatever file sits under the key's hash. */
    method Remove(key: IdemKey, io: Io) returns (ok: bool)
      modifies this
      ensures files == RemovedFiles(hash, old(files), key, io)
      ensures ok == (StepsDone(io, 1) == 1)
      ensures entries == if ok then old(entries) - {key} else old(entries)
    {
      if StepsDone(io, 1) == 0 {
        return false;
      }
      files := IndexApply(hash, files, RemoveEntry(key));
      entries := entries - {key};
      return true;
    }

    method MergeFromWal(records: seq<WalRecord>)
      modifies this`entries
      ensures entries == Merged(old(entries), records)
    {
      for i := 0 to |records|
        invariant entries == Merged(old(entries), records[..i])
      {
        assert records[..i + 1][..i] == records[..i];
        var e := MergeEntry(records[i]);
        if e.Some? && e.value.key !in entries {
          entries := entries[e.value.key := e.value];
        }
      }
      assert records[..|records|] == records;
    }
  }

  // ----- The key as one string -----

  function OpName(op: Operation): string {
    match op
    case ConfigPropose => "config.propose"
    case TxApply => "tx.apply"
  }

  function Joined(k: IdemKey): string {
    k.agentId + ":" + (OpName(k.op) + ":" + k.key)
  }

  /** What follows `a:` in an agent id (or its end) begins with an operation name. */
  predicate Shadows(a: string, b: string, op: Operation) {
    a + ":" + (OpName(op) + ":") <= b + ":"
  }

  predicate Shadowed(a: string, b: string) {
    Shadows(a, b, ConfigPropose) || Shadows(a, b, TxApply)
  }

  lemma OpNamesHaveNoColon(op: Operation, i: nat)
    requires i < |OpName(op)|
    ensures OpName(op)[i] != ':'
  {
    match op {
      case ConfigPropose => assert OpName(op) == "config.propose";
      case TxApply => assert OpName(op) == "tx.apply";
    }
  }

  /** Two keys of one agent never share a string. */
  lemma SameAgentNeverCollides(x: IdemKey, y: IdemKey)
    requires x.agentId == y.agentId && Joined(x) == Joined(y)
    ensures x == y
  {
    var n := |x.agentId| + 1;
    var restX, restY := OpName(x.op) + ":" + x.key, OpName(y.op) + ":" + y.key;
    assert restX == Joined(x)[n..] && restY == Joined(y)[n..];
    assert restX[0] == OpName(x.op)[0] && restY[0] == OpName(y.op)[0];
    assert x.op == y.op;
    assert x.key == restX[|OpName(x.op)| + 1..] && y.key == restY[|OpName(y.op)| + 1..];
  }

  /** An agent shadows exactly the agents whose id continues its own by an operation name. */
  lemma ShadowsExactly(a: string, b: string, op: Operation)
    ensures Shadows(a, b, op) <==> b == a + ":" + OpName(op) || a + ":" + (OpName(op) + ":") <= b
  {
    hide OpName;
    var head := a + ":" + (OpName(op) + ":");
    if Shadows(a, b, op) {
      if |head| <= |b| {
        assert head == (b + ":")[..|head|] == b[..|head|];
      } else {
        assert b == (b + ":")[..|b|] == head[..|b|];
      }
    }
  }

  /** Such agents exist next to every agent, and keys of the two then spell one string. */
  lemma ShadowingCollides(a: string, op: Operation, key: string)
    ensures var b := a + ":" + OpName(op);
      && a != b && Shadowed(a, b)
      && Joined(IdemKey(a, op, "tx.apply:" + key)) == Joined(IdemKey(b, TxApply, key))
  {
    var b := a + ":" + OpName(op);
    ShadowsExactly(a, b, op);
    assert Joined(IdemKey(a, op, "tx.apply:" + key)) == b + ":" + ("tx.apply:" + key);
  }

  /** A colon behind an agent id lies at or behind the end of the operation name, which holds none. */
  lemma ColonEndsHead(a: string, op: string, key: string, at: nat, line: string)
    requires line == a + ":" + (op + ":" + key) && |a| < at < |line| && line[at] == ':'
    requires forall i :: 0 <= i < |op| ==> op[i] != ':'
    ensures |a + ":" + (op + ":")| <= at + 1
  {
    assert forall k :: |a| < k <= |a| + |op| ==> line[k] == op[k - |a| - 1];
  }

  /** If the shorter agent's key collides with another agent's, it shadows that agent. */
  lemma CollisionShadows(x: IdemKey, y: IdemKey)
    requires Joined(x) == Joined(y) && |x.agentId| < |y.agentId|
    ensures Shadows(x.agentId, y.agentId, x.op)
  {
    hide OpName;
    forall i | 0 <= i < |OpName(x.op)| ensures OpName(x.op)[i] != ':' {
      OpNamesHaveNoColon(x.op, i);
    }
    var head := x.agentId + ":" + (OpName(x.op) + ":");
    var line := Joined(x);
    assert line == head + x.key;
    assert line == y.agentId + ":" + (OpName(y.op) + ":" + y.key);
    ColonEndsHead(x.agentId, OpName(x.op), x.key, |y.agentId|, line);
    assert head == line[..|head|];
    assert y.agentId + ":" == line[..|y.agentId| + 1];
    assert head == (y.agentId + ":")[..|head|];
  }

  /** The key of agent `a` that spells the same string as a key of an agent it shadows. */
  lemma ShadowCollides(a: string, b: string, op: Operation)
    requires Shadows(a, b, op)
    ensures exists k: string, l: string :: Joined(IdemKey(a, op, k)) == Joined(IdemKey(b, TxApply, l))
  {
    var head := a + ":" + (OpName(op) + ":");
    var line := Joined(IdemKey(b, TxApply, ""));
    assert b + ":" <= line;
    assert head == line[..|head|];
    assert line == Joined(IdemKey(a, op, line[|head|..]));
  }

  predicate Collide(x: IdemKey, y: IdemKey) {
    Joined(x) == Joined(y)
  }

  /** Keys of two different agents can spell the same string exactly when one agent shadows the other. */
  lemma CollisionExactly(a: string, b: string)
    requires a != b
    ensures (exists x: IdemKey, y: IdemKey :: x.agentId == a && y.agentId == b && Collide(x, y))
            <==> Shadowed(a, b) || Shadowed(b, a)
  {
    forall x: IdemKey, y: IdemKey | x.agentId == a && y.agentId == b && Collide(x, y)
      ensures Shadowed(a, b) || Shadowed(b, a)
    {
      assert a == Joined(x)[..|a|] && b == Joined(y)[..|b|];
      if |a| == |b| {
        assert false;
      } else if |a| < |b| {
        CollisionShadows(x, y);
      } else {
        CollisionShadows(y, x);
      }
    }
    forall op | Shadows(a, b, op) || Shadows(b, a, op)
      ensures exists x: IdemKey, y: IdemKey :: x.agentId == a && y.agentId == b && Collide(x, y)
    {
      if Shadows(a, b, op) {
        ShadowCollides(a, b, op);
        var k, l :| Joined(IdemKey(a, op, k)) == Joined(IdemKey(b, TxApply, l));
        assert Collide(IdemKey(a, op, k), IdemKey(b, TxApply, l));
      } else {
        ShadowCollides(b, a, op);
        var k, l :| Joined(IdemKey(b, op, k)) == Joined(IdemKey(a, TxApply, l));
        assert Collide(IdemKey(a, TxApply, l), IdemKey(b, op, k));
      }
    }
  }
}
