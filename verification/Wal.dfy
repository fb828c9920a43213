/**
 The write-ahead log: one file per record plus a checkpoint file, each replaced atomically by a
 temporary file and a rename. Every write is a list of primitive steps, so that a failure or a
 crash can fall between any two of them.
 */
module Wal {
  import opened Wrappers
  import opened TxStates

  // ----- Records -----

  type Digest = string
  datatype BaseRevision = BaseRevision(generation: Option<string>, etcGitCommit: string, configDigest: Digest)
  datatype EffectClass = R | D | M | E | F
  datatype TestPlan = TestPlan(adapter: string, steps: seq<string>)

  /** What must never change along one transaction's records. */
  datatype Identity = Identity(
    agentId: string, manifestDigest: Digest, baseRevision: BaseRevision,
    effectSet: seq<EffectClass>, diff: string, affectedResources: seq<string>)

  /** The stored result of an operation, before its text coding. */
  datatype StoredResult =
    | ProposeResult(txId: string, diff: string, testPlan: TestPlan, affectedResources: seq<string>,
                    baseRevision: BaseRevision, candidateClosure: Option<string>)
    | StepResult(txId: string, state: TxState)

  datatype WalRecord = WalRecord(
    version: nat, seqNo: nat, txId: string, state: TxState,
    idemKey: Option<string>, fingerprint: Option<string>,
    identity: Identity, approvalRef: Option<string>, result: Option<StoredResult>)

  // ----- Primitive steps -----

  /** How a multi-step write ended: completely, or with an error after some of its steps took effect. */
  datatype Io = Completed | FailedAfter(done: nat)

  function StepsDone(io: Io, steps: nat): (n: nat)
    ensures n <= steps
  {
    if io.Completed? || io.done > steps then steps else io.done
  }

  /** The WAL directory: record files in order of their sequence numbers, leftovers, checkpoint. */
  datatype WalDisk = WalDisk(records: seq<WalRecord>, temps: set<nat>, checkpoint: Option<nat>)

  const EMPTY_WAL := WalDisk([], {}, None)

  datatype WalStep =
    | WriteRecordTemp(seqNo: nat)
    | RenameRecord(record: WalRecord)
    | WriteCheckpointTemp
    | RenameCheckpoint(seqNo: nat)
    | RemoveRecord(seqNo: nat)
    | RemoveCheckpoint

  /** A rename puts the file in its place in the listing, replacing one of the same name. */
  function Install(records: seq<WalRecord>, r: WalRecord): seq<WalRecord> {
    if records == [] || records[|records| - 1].seqNo < r.seqNo then records + [r]
    else
      var init, last := records[..|records| - 1], records[|records| - 1];
      if last.seqNo == r.seqNo then init + [r] else Install(init, r) + [last]
  }

  function Without(records: seq<WalRecord>, seqNo: nat): seq<WalRecord> {
    if records == [] then []
    else
      var init, last := records[..|records| - 1], records[|records| - 1];
      if last.seqNo == seqNo then Without(init, seqNo) else Without(init, seqNo) + [last]
  }

  /** A listing by sequence number, without repeats. */
  predicate Listed(records: seq<WalRecord>) {
    forall i, j :: 0 <= i < j < |records| ==> records[i].seqNo < records[j].seqNo
  }

  /** Installing keeps the listing in order, puts the record in, and replaces no other than one of its number. */
  lemma {:induction false} InstallsExactly(records: seq<WalRecord>, r: WalRecord)
    requires Listed(records)
    ensures Listed(Install(records, r))
    ensures forall s :: s in Install(records, r) <==> s == r || (s in records && s.seqNo != r.seqNo)
  {
    if records != [] && records[|records| - 1].seqNo >= r.seqNo {
      var init, last := records[..|records| - 1], records[|records| - 1];
      assert records == init + [last];
      if last.seqNo != r.seqNo {
        InstallsExactly(init, r);
        var before := Install(init, r);
        forall i | 0 <= i < |before| ensures before[i].seqNo < last.seqNo {
          assert before[i] in before;
        }
      }
    }
  }

  /** Removing a number keeps the order and every record of another number. */
  lemma {:induction false} WithoutExactly(records: seq<WalRecord>, seqNo: nat)
    requires Listed(records)
    ensures Listed(Without(records, seqNo))
    ensures forall s :: s in Without(records, seqNo) <==> s in records && s.seqNo != seqNo
  {
    if records != [] {
      var init, last := records[..|records| - 1], records[|records| - 1];
      assert records == init + [last];
      WithoutExactly(init, seqNo);
      var before := Without(init, seqNo);
      forall i | 0 <= i < |before| ensures before[i].seqNo < last.seqNo {
        assert before[i] in before;
      }
    }
  }

  function WalApply(d: WalDisk, step: WalStep): WalDisk {
    match step
    case WriteRecordTemp(n) => d.(temps := d.temps + {n})
    case RenameRecord(r) => d.(temps := d.temps - {r.seqNo}, records := Install(d.records, r))
    case WriteCheckpointTemp => d
    case RenameCheckpoint(n) => d.(checkpoint := Some(n))
    case RemoveRecord(n) => d.(records := Without(d.records, n))
    case RemoveCheckpoint => d.(checkpoint := None)
  }

  function WalApplyAll(d: WalDisk, steps: seq<WalStep>): WalDisk {
    if steps == [] then d else WalApply(WalApplyAll(d, steps[..|steps| - 1]), steps[|steps| - 1])
  }

  function AppendSteps(r: WalRecord): seq<WalStep> {
    [WriteRecordTemp(r.seqNo), RenameRecord(r), WriteCheckpointTemp, RenameCheckpoint(r.seqNo)]
  }

  function RevertSteps(seqNo: nat): seq<WalStep> {
    if seqNo <= 1 then [RemoveRecord(seqNo), RemoveCheckpoint]
    else [RemoveRecord(seqNo), WriteCheckpointTemp, RenameCheckpoint(seqNo - 1)]
  }

  function WalRun(d: WalDisk, steps: seq<WalStep>, io: Io): WalDisk {
    WalApplyAll(d, steps[..StepsDone(io, |steps|)])
  }

  /** Removing the last checkpoint file is best effort; every other failed step is reported. */
  predicate RevertSucceeds(seqNo: nat, io: Io) {
    io.Completed? || (seqNo <= 1 && io.done >= 1)
  }

  // ----- Recovery -----

  function CheckpointSeq(d: WalDisk): nat {
    d.checkpoint.GetOr(0)
  }

  function MaxSeq(records: seq<WalRecord>): nat {
    if records == [] then 0
    else
      var before := MaxSeq(records[..|records| - 1]);
      if before < records[|records| - 1].seqNo then records[|records| - 1].seqNo else before
  }

  predicate Numbered(records: seq<WalRecord>) {
    forall i :: 0 <= i < |records| ==> records[i].seqNo == i + 1
  }

  predicate ConsistentWithCheckpoint(records: seq<WalRecord>, checkpoint: nat) {
    MaxSeq(records) == checkpoint && Numbered(records)
  }

  /** The records that recovery accepts; `None` is safe mode. */
  function Recovered(d: WalDisk): Option<seq<WalRecord>> {
    if d.temps != {} || !ConsistentWithCheckpoint(d.records, CheckpointSeq(d)) then None else Some(d.records)
  }

  lemma {:induction false} MaxOfNumbered(records: seq<WalRecord>)
    requires Numbered(records)
    ensures MaxSeq(records) == |records|
  {
    if records != [] {
      MaxOfNumbered(records[..|records| - 1]);
    }
  }

  /** Recovery accepts exactly the directories that hold records 1 to n and a checkpoint at n. */
  lemma RecoveredExactly(d: WalDisk)
    ensures Recovered(d).Some? <==> d.temps == {} && Numbered(d.records) && CheckpointSeq(d) == |d.records|
  {
    if Numbered(d.records) {
      MaxOfNumbered(d.records);
    }
  }

  lemma RecoveredIs(d: WalDisk)
    ensures Recovered(d).Some? ==> Recovered(d).value == d.records
  {
  }

  /** What an append cut after any number of its steps leaves, wherever its record belongs. */
  lemma UnrollInstall(d: WalDisk, r: WalRecord, io: Io)
    ensures var n := StepsDone(io, 4);
      WalRun(d, AppendSteps(r), io) ==
        WalDisk(if n < 2 then d.records else Install(d.records, r),
                if n == 0 then d.temps else if n == 1 then d.temps + {r.seqNo} else d.temps - {r.seqNo},
                if n < 4 then d.checkpoint else Some(r.seqNo))
  {
    var steps := AppendSteps(r);
    var d1 := WalApply(d, steps[0]);
    var d2 := WalApply(d1, steps[1]);
    assert WalApplyAll(d, steps[..0]) == d;
    assert steps[..1][..0] == steps[..0] && WalApplyAll(d, steps[..1]) == d1;
    assert steps[..2][..1] == steps[..1] && WalApplyAll(d, steps[..2]) == d2;
    assert steps[..3][..2] == steps[..2] && WalApplyAll(d, steps[..3]) == d2;
    assert steps[..4][..3] == steps[..3] && WalApplyAll(d, steps[..4]) == d2.(checkpoint := Some(r.seqNo));
    assert d.temps + {r.seqNo} - {r.seqNo} == d.temps - {r.seqNo};
  }

  /** The same for a record newer than all the others. */
  lemma UnrollAppend(d: WalDisk, r: WalRecord, io: Io)
    requires d.records == [] || d.records[|d.records| - 1].seqNo < r.seqNo
    ensures var n := StepsDone(io, 4);
      WalRun(d, AppendSteps(r), io) ==
        WalDisk(if n < 2 then d.records else d.records + [r],
                if n == 0 then d.temps else if n == 1 then d.temps + {r.seqNo} else d.temps - {r.seqNo},
                if n < 4 then d.checkpoint else Some(r.seqNo))
  {
    hide WalRun, AppendSteps;
    UnrollInstall(d, r, io);
  }

  lemma UnrollRevert(d: WalDisk, seqNo: nat, io: Io)
    ensures var n := StepsDone(io, |RevertSteps(seqNo)|);
      WalRun(d, RevertSteps(seqNo), io) ==
        d.(records := if n == 0 then d.records else Without(d.records, seqNo),
           checkpoint := if n < |RevertSteps(seqNo)| then d.checkpoint else if seqNo <= 1 then None else Some(seqNo - 1))
  {
    var steps := RevertSteps(seqNo);
    var d1 := WalApply(d, steps[0]);
    assert WalApplyAll(d, steps[..0]) == d;
    assert steps[..1][..0] == steps[..0] && WalApplyAll(d, steps[..1]) == d1;
    assert steps[..2][..1] == steps[..1] && WalApplyAll(d, steps[..2]) == WalApply(d1, steps[1]);
    if seqNo > 1 {
      assert steps[..3][..2] == steps[..2] && WalApplyAll(d, steps[..3]) == WalApply(d1, steps[2]);
    }
  }

  // ----- The store object -----

  class WalStore {
    var disk: WalDisk
    var checkpointSeq: nat

    constructor Open(disk: WalDisk)
      ensures this.disk == disk && checkpointSeq == CheckpointSeq(disk)
    {
      this.disk := disk;
      checkpointSeq := CheckpointSeq(disk);
    }

    method RecordsConsistent(records: seq<WalRecord>) returns (ok: bool)
      ensures ok == ConsistentWithCheckpoint(records, checkpointSeq)
    {
      var maxSeq := 0;
      for i := 0 to |records|
        invariant maxSeq == MaxSeq(records[..i])
      {
        assert records[..i + 1][..i] == records[..i];
        if maxSeq < records[i].seqNo {
          maxSeq := records[i].seqNo;
        }
      }
      assert records[..|records|] == records;
      if maxSeq != checkpointSeq {
        return false;
      }
      for i := 0 to |records|
        invariant Numbered(records[..i])
      {
        if records[i].seqNo != i + 1 {
          return false;
        }
      }
      return true;
    }

    method Recover() returns (records: Option<seq<WalRecord>>)
      requires checkpointSeq == CheckpointSeq(disk)
      ensures records == Recovered(disk)
    {
      if disk.temps != {} {
        return None;
      }
      var ok := RecordsConsistent(disk.records);
      return if ok then Some(disk.records) else None;
    }

    method AppendTransition(r: WalRecord, io: Io) returns (ok: bool)
      modifies this
      ensures var n, d := StepsDone(io, 4), old(disk);
        disk == WalDisk(if n < 2 then d.records else Install(d.records, r),
                        if n == 0 then d.temps else if n == 1 then d.temps + {r.seqNo} else d.temps - {r.seqNo},
                        if n < 4 then d.checkpoint else Some(r.seqNo))
      ensures disk == WalRun(old(disk), AppendSteps(r), io)
      ensures ok == io.Completed?
      ensures checkpointSeq == if ok then r.seqNo else old(checkpointSeq)
    {
      hide WalRun, AppendSteps, Install;
      UnrollInstall(disk, r, io);
      if io == FailedAfter(0) {
        return false;
      }
      // the record's temporary file, then its rename
      disk := disk.(temps := disk.temps + {r.seqNo});
      if io == FailedAfter(1) {
        return false;
      }
      disk := disk.(temps := disk.temps - {r.seqNo}, records := Install(disk.records, r));
      // the checkpoint's temporary file lies outside the listing; then its rename
      if io == FailedAfter(2) || io == FailedAfter(3) {
        return false;
      }
      disk := disk.(checkpoint := Some(r.seqNo));
      if io.FailedAfter? {
        return false;
      }
      checkpointSeq := r.seqNo;
      return true;
    }

    method RevertLastTransition(seqNo: nat, io: Io) returns (ok: bool)
      modifies this
      ensures var steps, d := if seqNo <= 1 then 2 else 3, old(disk);
        disk == d.(records := if StepsDone(io, steps) == 0 then d.records else Without(d.records, seqNo),
                   checkpoint := if StepsDone(io, steps) < steps then d.checkpoint
                                 else if seqNo <= 1 then None else Some(seqNo - 1))
      ensures disk == WalRun(old(disk), RevertSteps(seqNo), io)
      ensures ok == RevertSucceeds(seqNo, io)
      ensures checkpointSeq == if ok then (if seqNo <= 1 then 0 else seqNo - 1) else old(checkpointSeq)
    {
      hide WalRun, Without;
      UnrollRevert(disk, seqNo, io);
      if io == FailedAfter(0) {
        return false;
      }
      disk := disk.(records := Without(disk.records, seqNo));
      if seqNo <= 1 {
        // best effort
        if io != FailedAfter(1) {
          disk := disk.(checkpoint := None);
        }
        checkpointSeq := 0;
        return true;
      }
      // the checkpoint's temporary file, then its rename
      if io == FailedAfter(1) || io == FailedAfter(2) {
        return false;
      }
      disk := disk.(checkpoint := Some(seqNo - 1));
      if io.FailedAfter? {
        return false;
      }
      checkpointSeq := seqNo - 1;
      return true;
    }
  }
}
