# Agentbed broker and watchdog: verified model

A Dafny 4.11 model of the two durable state machines of Agentbed and of the canonical text its
digests are taken of, with proofs about whole runs. Verify with `dafny verify dfyconfig.toml`, or
with all `.dfy` files on one command line.

**Watchdog decision authority** (`AuthorityLog`, `AuthorityLaws`, `Crc32`, `DecisionLog`, `RpcFrames`,
`WatchdogModel`, `WatchdogRuns`, `WatchdogLaws`, `WatchdogTheorems`, `WatchdogTexts`,
`WatchdogWitnesses`, `WatchdogObjects`). The writer (the core's handlers) and the strict reader
(schema, sequence, epoch and lease checks over CRC-framed records) are modelled separately and shown to agree in every run of startups, session binds, requests,
storage faults and process deaths. `WatchdogModel` gives every handler as a function of core,
request and environment (clock, invariant results, fence outcomes, the fate of each durable step);
`WatchdogLaws` says of each function exactly when it grants, by which test it refuses otherwise and
what each leaves behind, and `WatchdogObjects` holds the core and its sessions as classes, each method
proved to do what that function does.

**Broker transaction engine** (`TxStates`, `Wal`, `Events`, `Idempotency`, `Recovery`,
`EngineModel`, `EngineTraces`, `EngineRuns`, `EngineIdempotency`, `EngineFaultFree`,
`EngineLaws`, `EngineFailures`, `EngineEvents`, `EngineFollowers`, `EngineLostEvents`,
`EngineWitnesses`, `EngineObjects`). The disk is a WAL directory (record files, leftover temporary
files, checkpoint), an event log with metadata and an index of files named by a hash. Every call is a
function of engine, call and environment that also lists its primitive disk steps, so that a
storage error or a crash falls between any two of them. `EngineLaws` says exactly what each call
answers and records and how each commit ends under each fault; `EngineObjects` holds the engine as a
class over the three store classes, each method proved against the function of the same call.

**Canonical JSON and digests** (`Decimals`, `Unicode`, `Jcs`, `JsonReader`, `StrictJson`,
`EcmaNumbers`, `Digests`), following sections 3.2.2 and 3.2.3 of RFC 8785. `JsonReader` is a reader
written from the grammar; the printer is proved against it.

**Wire frames, quota and policy** (`WireFrames`, `Quota`, `Policy`).

## What turned out not to hold as documented

Each of these but the last, an observation, is proved with its exact condition, and a lemma
exhibits a run or an input that meets it.

- The watchdog's writer does not enforce the reader's 64 KiB limit, so a log it wrote can be refused
  at the next start: `RestartRestoresAuthority` says a restart succeeds if and only if every record
  is within the limit and the floor is not above the epoch. `OversizeArmIsReached` gives the run of a
  start, a session bind and an arm that ends beyond the limit, for any coding. Request frames have a
  limit of 64 KiB too, but the record takes its lease from the bind frame and its base from the arm
  frame: `AcceptedFramesOverrun` shows, on the records' and messages' own JSON texts, that both frames
  can be within the limit when the record is not.
- A write can report an error after everything that counts took effect: an append after its rename,
  or the revert of a step whose index entry failed. The broker then stays in service with a memory
  that differs from its disk. `DivergenceExactly`: after one call on a sound engine that leaves it
  in service, some fault-free continuation and a restart open with a table that memory does not show
  if and only if the call's transition was legal and its append failed after at least two steps or
  its revert after all three. `AppendLeadsAstray` and `RevertLeadsAstray` give a run for each case.
  What a restart finds in the single cases is in `FailedAppendReopensExactly` (nothing further
  served), `SwallowedAppendExactly` (one more complete transition: the failed one shows if and only
  if its record was renamed and the next is of another transaction, otherwise safe mode) and
  `FailedRevertReopensExactly`. Over whole runs, the crash theorem asks that no earlier call was
  misled in this way (`NeverMisled`); what a call never gets to write does not count.
- The comment in recovery.rs that events may lag the WAL holds for one opening only. A crash between
  a record and its event reopens (`CrashedCallReopens`), but any further transition of that
  transaction leaves a disk that opens in safe mode (`CrashedTransactionIsBlocked`). In no later run
  is the event made up for, unless it was a rejection's (`LostEventMadeUpExactly`, both directions).
  `LossIsReachable` and `RejectionLossIsReachable` give a run for each direction. `ReopensExactly` is
  the general if-and-only-if.
- The moved-base refusal does not consult the transition table. `RefusalReopensExactly`: the engine
  can be reopened after it if and only if the transaction was Proposed, Testing or Applying;
  `RefusalStrandsBoth` gives fault-free runs that end in safe mode from Probation and from Rejected.
- A proposal that was rolled back because its event wrote nothing leaves its index entry behind if
  the last, best-effort removal has no effect. `LeftoverEntryExactly`: the retried call is then told
  of a transaction that no record holds; if the removal took effect, the retry does the work; if the
  event wrote anything, the next opening is safe mode. `LeftoverIsReached` gives the run, restart
  included.
- The idempotency key joins agent, operation and key with colons. `CollisionExactly`: keys of two
  agents can spell one string if and only if one agent's id shadows the other's, that is, if one id
  continues the other by a colon and an operation name (`ShadowsExactly`); next to every agent id
  there is such another (`ShadowingCollides`). Ids are not kept free of colons. The engine model uses
  the triple, which is what the joined string stands for unless agents shadow each other
  (`SameAgentNeverCollides`).
- Following event cursors is exact if and only if no append is tried between a poll's replay and its
  cursor, which are taken under two locks: `PollExactly` for the log by itself, `AskExactly` for the
  engine under faults. An event that falls into that gap is delivered by no later poll
  (`GapIsNeverMadeUp`); `GapIsReached` and `UnquietGapIsReached` give the runs.
- The engine writes broker_mode.json when it enters safe mode and never reads it, so broker safe
  mode lasts only as long as the process unless recovery itself refuses the disk.

## Modelling choices

- A crash inside a watchdog call leaves the store that a storage fault at that step leaves when the
  safe-mode marker is not stored, so runs contain crashes as such a fault followed by `Stop`. For
  the broker this is not a convention but a lemma (`CrashIsFault`) about prefixes of a call's step
  list.
- Writes followed by a rename and a directory sync are separate steps; a step that "took effect but
  reported failure" is the case of a fault after it. Disk reordering below fsync is not modelled.
- Record, event and index texts are represented by the values they code. The watchdog's record
  coding is a pair of functions assumed inverse where bytes matter (`Faithful`); serde_json's text of
  a record is one such coding (`JsonIsFaithful`).
- `TxState.Idle` stands for both the wire's Idle and the engine's internal None, which the
  conversions in state.rs identify.
- Fresh transaction ids, adapter answers, clocks, directory listings and the log id are inputs of a
  call. `fingerprint` is the text of the whole parameters.
- A watchdog deadline computation that overflows its time type is the outcome `Panicked`.

## Model

| member | source | states |
|---|---|---|
| AuthorityLog.Reconstruct | watchdogd/src/read_model.rs:314-416 | the loop that rebuilds the active authority computes exactly the replay of the records, or refuses where the replay does |
| AuthorityLog.ReplaySnoc | watchdogd/src/read_model.rs:314-416 | replaying one more record is replaying the others and then that record |
| AuthorityLog.ReplayPrefixAccepted | watchdogd/src/read_model.rs:314-416 | every prefix of an accepted log is accepted |
| AuthorityLaws.SchemaExactly | watchdogd/src/read_model.rs:159-221 | a record is valid if and only if it names host, transaction, lease and worker group, carries exactly its kind's fields, and its instants are whole; an armed one holds the lease of one hour or up to its deadline |
| AuthorityLaws.OrderExactly | watchdogd/src/read_model.rs:269-285 | the reader's order is: valid records, numbered from 1, epochs never falling |
| AuthorityLaws.ReplaysExactly | watchdogd/src/read_model.rs:314-416 | the replay of valid records succeeds if and only if those that bear on the authority are one Armed, renewals each in time and for longer, and at most one decision, all of one session; and yields what they stand for |
| Crc32.Compute | watchdogd/src/read_model.rs:581-591 | the bitwise loop over all bytes computes the reflected CRC-32 of the payload |
| Crc32.BurstDetected | watchdogd/src/read_model.rs:581-591 | equal-length payloads that differ only within four adjacent bytes never share a checksum |
| Crc32.ChecksumOfTwo | watchdogd/src/read_model.rs:581-591 | the checksum of the bytes of 'ab' is 0x9e83486d, as for every CRC-32 of this polynomial, start, reflection and complement |
| DecisionLog.NextPayload | watchdogd/src/read_model.rs:250-268 | header, limit, length and checksum checks of one frame |
| DecisionLog.Open | watchdogd/src/read_model.rs:236-289 | the offset loop over the file reads exactly the list of records the specification accepts, or refuses the whole log |
| DecisionLog.ReadExactly | watchdogd/src/read_model.rs:236-289 | reading framed records followed by any bytes is judging the records and then reading the rest |
| DecisionLog.ReadBack | watchdogd/src/read_model.rs:419-446 | records with sequences 1 to n, non-decreasing epochs and payloads within the limit, framed and concatenated, are read back as the same list |
| DecisionLog.ReadCutLog | watchdogd/src/read_model.rs:236-289 | a log cut anywhere is accepted exactly when the cut is on a record boundary, and then yields the records before it |
| DecisionLog.AcceptedIsConsecutive | watchdogd/src/read_model.rs:269-285 | whatever bytes the reader accepts, the records are consecutive, schema-valid and of non-decreasing epoch |
| DecisionLog.CorruptPayloadRefused | watchdogd/src/read_model.rs:266-268 | a payload changed within four adjacent bytes is refused, whatever follows it |
| DecisionLog.CorruptLogRejected | watchdogd/src/read_model.rs:236-289 | a log holding such a frame after any number of records is refused as a whole |
| RpcFrames.EncodeFrame | watchdogd/src/rpc/protocol.rs:351-361 | refuses exactly oversize payloads; what it returns decodes to the payload |
| RpcFrames.DecodeFrame | watchdogd/src/rpc/protocol.rs:363-390 | malformed, oversize and checksum refusals in the code's order |
| RpcFrames.AcceptedFramesAreEncodings | watchdogd/src/rpc/protocol.rs:351-390 | a frame decodes to a payload if and only if it is the encoding of that payload and within the limit |
| RpcFrames.RefusalsExactly | watchdogd/src/rpc/protocol.rs:363-390 | short header, oversize, wrong length and wrong checksum are refused in this order |
| Bytes.BigEndianLength | watchdogd/src/read_model.rs:569-579 | in a length header the first byte counts most |
| RpcFrames.CorruptPayloadMismatches | watchdogd/src/rpc/protocol.rs:384-386 | a payload changed within four adjacent bytes is always a checksum mismatch |
| WatchdogModel.LogAcceptedIsReader | watchdogd/src/read_model.rs:236-289 | the record-level judgement used in runs is the byte-level reader's own, torn tail included |
| WatchdogObjects.SessionState.Verify | watchdogd/src/session.rs:105-137 | capability, counter and binding checks, each with its refusal |
| WatchdogObjects.SessionState.Decode | watchdogd/src/rpc/protocol.rs:441-489 | an accepted envelope advances the counter to its own; a refused one changes nothing |
| WatchdogObjects.WatchdogCore.AppendRecord | watchdogd/src/core.rs:646-655 | the log and sequence after an append under every fate of its steps; failure latches safe mode |
| WatchdogObjects.WatchdogCore.AdvanceEpoch | watchdogd/src/core.rs:657-693 | the epoch file, mode and reply after an advance under every fate of its steps |
| WatchdogObjects.WatchdogCore.RunFence | watchdogd/src/core.rs:600-640 | the signals, waits and observations of a fence, and whether it completed |
| WatchdogObjects.WatchdogCore.HandleArm | watchdogd/src/core.rs:360-433 | the whole new core and reply of an arm request, error branches included |
| WatchdogObjects.WatchdogCore.HandleLeaseRenewal | watchdogd/src/core.rs:435-512 | the whole new core and reply of a renewal or heartbeat; one that does not extend the lease moves only the clock |
| WatchdogObjects.WatchdogCore.HandleDecision | watchdogd/src/core.rs:514-598 | the whole new core and reply of a decision request, fence and idempotent repeats included |
| WatchdogObjects.WatchdogCore.HandleRequest | watchdogd/src/core.rs:209-290 | dispatch outside safe mode, and the session counter afterwards |
| WatchdogObjects.WatchdogCore.Serve | watchdogd/src/rpc/server.rs:70-73 | decode then handle, as the server drives them, is one delivery step of a run |
| WatchdogObjects.WatchdogCore.Bind | watchdogd/src/core.rs:716-737 | binding a session, with the epoch normalized to the next one while no binding exists |
| WatchdogObjects.StartCore | watchdogd/src/core.rs:74-195 | the startup checks in order, what they leave of the store, and the resumed core |
| WatchdogLaws.AcceptsExactly | watchdogd/src/rpc/protocol.rs:441-489 | an envelope is accepted if and only if its capability is the session's, its counter the next, and host, transaction, epoch and request id agree inside and out; each refusal is that of the first test that fails |
| WatchdogLaws.SessionsAreBound | watchdogd/src/session.rs:51-99 | in every run the sessions are those bound in the running process, each with the capability of its last bind and one accepted request per count |
| WatchdogLaws.SessionsAreBrokers | watchdogd/src/session.rs:51-76 | in every run every session was bound by the broker |
| WatchdogLaws.BindsExactly | watchdogd/src/core.rs:339-358 | a bind is granted if and only if the peer is the broker, outside safe mode, with an epoch that can advance if nothing is bound, else under the binding that holds; each refusal by the first test that fails |
| WatchdogLaws.ArmsExactly | watchdogd/src/core.rs:360-433 | an arm is confirmed if and only if host, base, checks, binding, epoch, deadline, clock, numbers, schema and both writes are in order; then epoch, record, armed state and clock are these |
| WatchdogLaws.ArmRefusals | watchdogd/src/core.rs:360-400 | each refusal before the epoch is advanced is that of the first test that fails, and writes nothing |
| WatchdogLaws.ArmWrites | watchdogd/src/core.rs:400-433 | what fails after the deadline test: the epoch advance, the window, the number, the instant or the append, each with what it leaves |
| WatchdogLaws.RenewsExactly | watchdogd/src/core.rs:435-512 | a renewal is granted if and only if it names the armed transaction, epoch, lease and worker group, undecided and in time, and either would not extend the lease or the extension is written |
| WatchdogLaws.RenewalRefusals | watchdogd/src/core.rs:435-478 | each refusal of a renewal is that of the first test that fails, and changes nothing but the latch |
| WatchdogLaws.RenewalWrites | watchdogd/src/core.rs:478-512 | an extension that cannot be numbered, stored or appended, each with what it leaves |
| WatchdogLaws.DecidesExactly | watchdogd/src/core.rs:514-598 | a decision is announced if and only if it is open, in time, fenced if the lease has expired, evaluated and appended; it is BeginCommit if and only if the invariants passed |
| WatchdogLaws.DecisionRefusals | watchdogd/src/core.rs:519-566 | each refusal before the fence is that of the first test that fails, and leaves the log alone |
| WatchdogLaws.LateDecisionRefusals | watchdogd/src/core.rs:566-575 | past the deadline, without an evaluation or without a number nothing changes |
| WatchdogLaws.DecisionWrites | watchdogd/src/core.rs:575-598 | a decision that reaches its record answers as the append does, after the fence's effects |
| WatchdogLaws.StoppedFenceLatches | watchdogd/src/core.rs:600-640 | a decision request answers FenceIncomplete if and only if it reaches the fence and the group is not confirmed gone with zero jobs; then safe mode is latched, and log, epoch and armed state are as they were |
| WatchdogLaws.FenceInOrder | watchdogd/src/core.rs:608-640 | a fence's effects are a beginning of Term, wait, look, (Kill, wait, look,) count, as long as the script lets it go |
| WatchdogLaws.DispatchesExactly | watchdogd/src/core.rs:209-290 | safe mode refuses everything; health is acknowledged for the armed transaction only; a heartbeat does what a renewal does |
| WatchdogLaws.DeadlinesExactly | watchdogd/src/core.rs:222-250 | the deadline is the sum of its parts, or none |
| WatchdogLaws.AppendsExactly | watchdogd/src/read_model.rs:419-446 | a record is acknowledged if and only if it was fit to write and no step failed; log, torn tail and latch under every failure |
| WatchdogLaws.AdvancesExactly | watchdogd/src/core.rs:657-693 | the epoch moves up by one in exactly the cases in which the new file took its place; reply, residue and latch under every failure |
| WatchdogLaws.StartsExactly | watchdogd/src/core.rs:74-195 | a start succeeds if and only if the store is openable, its log replays, and it was used with a sound, matching epoch or is new and writable; it resumes with what the log says |
| WatchdogLaws.StartRefusals | watchdogd/src/core.rs:74-160 | each refusal to start is that of the first test that fails, with what it may leave behind |
| WatchdogRuns.StepKeeps | watchdogd/src/core.rs:360-598 | every step keeps the store invariant and, outside safe mode, the agreement of memory and log |
| WatchdogRuns.RunsKeepInvariant | watchdogd/src/core.rs:74-598 | the same for every run from a fresh store, faults and restarts included |
| WatchdogTheorems.MemoryIsReplay | watchdogd/src/read_model.rs:314-416 | outside safe mode, memory is the replay of the durable log, log_seq is the record count and the replayed activity is no later than the clock; within the size limit the strict reader accepts the bytes and returns those records |
| WatchdogTheorems.RestartRestoresAuthority | watchdogd/src/core.rs:74-195 | a restart of an armed store succeeds if and only if all records fit the reader's limit and the floor is not above the epoch, and then restores the same authority |
| WatchdogWitnesses.OversizeArmIsReached | watchdogd/src/read_model.rs:419-446 | for every coding, host, lease and base whose armed record exceeds 64 KiB, a start, a bind and a confirmed arm end outside safe mode with a log no start accepts |
| WatchdogWitnesses.AcceptedFramesOverrun | watchdogd/src/rpc/protocol.rs:351-390 | on the JSON texts: plain leases and bases of up to 40,000 characters, 64 KiB together, give a bind frame and an arm frame that decode, and that run's refused log |
| WatchdogTexts.JsonIsFaithful | watchdogd/src/read_model.rs:47-66 | the bytes of a record's JSON text determine the record, so that coding has an inverse |
| WatchdogTexts.FieldsDetermine | watchdogd/src/read_model.rs:427-428 | objects written with the same fields and equal texts have equal values, whatever follows |
| WatchdogTheorems.LogsHaveShape | watchdogd/src/read_model.rs:314-416 | in every run the log is empty, or one Armed, then renewals, then at most one decision, all for one binding |
| WatchdogTheorems.OneDecision | watchdogd/src/core.rs:514-598 | a log never holds two decisions, so commit and revert never coexist |
| WatchdogTheorems.DecisionIsFinal | watchdogd/src/core.rs:514-598 | once a decision is in the log, no continuation of the run changes the log |
| WatchdogTheorems.LogOnlyGrows | watchdogd/src/core.rs:646-655 | the log of any later state extends the log of any earlier one |
| WatchdogTheorems.StepMovesStore | watchdogd/src/core.rs:657-693 | a step changes the epoch only inside Arm and then by exactly one, or creates it as zero at startup |
| WatchdogTheorems.EpochNeverDecreases | watchdogd/src/core.rs:657-693 | the durable epoch never decreases and never disappears |
| WatchdogTheorems.EpochIsLogEpoch | watchdogd/src/core.rs:114-145 | whenever the log holds a record, the durable epoch is the log's largest epoch, as startup cross-checks |
| WatchdogTheorems.LeaseLaw | watchdogd/src/read_model.rs:18-33 | in every armed state the lease ends at the earlier of last activity plus 3600 s and the hard deadline, after the armed time |
| WatchdogTheorems.RenewalsExtend | watchdogd/src/core.rs:478-511 | each written renewal strictly raises the expiry and is timed between the last activity and the previous expiry |
| WatchdogTheorems.FenceCompletes | watchdogd/src/core.rs:608-640 | a fence reports completion exactly when its effects are Term, wait, if alive Kill, wait and confirmed exit, then zero jobs |
| WatchdogTheorems.FenceBeforeDecision | watchdogd/src/core.rs:566-593 | a decision record written at or after lease expiry is preceded in the same call by exactly one complete fence; before expiry by nothing |
| WatchdogTheorems.AnnouncedDecision | watchdogd/src/core.rs:514-598 | an announced decision was open, in time and for the armed base, is a commit exactly when the invariants passed, and is the one record added |
| WatchdogTheorems.ConfirmedArm | watchdogd/src/core.rs:360-433 | a confirmed arm found nothing armed, the base unmoved, the required invariants listed and its epoch one above the durable one; it advanced that epoch, added one Armed record and armed exactly what was asked |
| WatchdogTheorems.SafeModeFreezes | watchdogd/src/core.rs:201-220 | after the latch nothing in that process changes log, epoch, armed state or binding |
| WatchdogTheorems.CountersConsecutive | watchdogd/src/session.rs:105-141 | the counters a session accepts are consecutive: no repeat, no gap |
| WatchdogTheorems.RefusedAtDecodeChangesNothing | watchdogd/src/rpc/protocol.rs:441-489 | a request refused at decode changes nothing, the counter included |
| WatchdogTheorems.DispatchedRequestIsBound | watchdogd/src/rpc/protocol.rs:441-489 | a dispatched request names exactly the durable binding's host, transaction and epoch |
| TxStates.TransitionsAdvance | broker/src/transaction/state.rs:84-93 | every legal transition moves forward and stays among broker-owned states |
| TxStates.TransitionsExactly | broker/src/transaction/state.rs:84-93 | the table is Idle, Proposed, Testing, Applying, Probation in a row, and Rejected from the middle three |
| TxStates.OwnersExactly | broker/src/transaction/state.rs:58-82 | every state is the broker's, the watchdog's, or none yet |
| Wal.WalStore.RecordsConsistent | broker/src/storage/wal.rs:218-230 | the two loops accept exactly records numbered from 1 whose largest number is the checkpoint |
| Wal.WalStore.Recover | broker/src/storage/wal.rs:101-131 | leftover temporary files or inconsistent records are safe mode; otherwise all records |
| Wal.RecoveredExactly | broker/src/storage/wal.rs:101-131 | recovery accepts exactly the directories holding records 1 to n, a checkpoint at n and no leftovers |
| Wal.WalStore.AppendTransition | broker/src/storage/wal.rs:154-175 | records, leftovers and checkpoint, in closed form, after an append cut at any of its steps |
| Wal.WalStore.RevertLastTransition | broker/src/storage/wal.rs:177-198 | records and checkpoint, in closed form, after a revert cut at any of its steps; removing the last checkpoint is best effort |
| Wal.UnrollAppend | broker/src/storage/wal.rs:154-175 | what records, leftovers and checkpoint are after the first n steps of an append |
| Wal.UnrollRevert | broker/src/storage/wal.rs:177-198 | what records and checkpoint are after the first n steps of a revert |
| Wal.InstallsExactly | broker/src/storage/wal.rs:154-175 | a rename keeps the listing in order and replaces no file but one of its own number |
| Wal.WithoutExactly | broker/src/storage/wal.rs:177-198 | a removal keeps every file of another number, in order |
| Events.EventLog.Append | broker/src/events.rs:169-198 | lines, tail, metadata and next number, in closed form, after an append cut at any of its steps; the number in memory moves on even on failure |
| Events.EventLog.ValidateIntegrity | broker/src/events.rs:148-162 | accepts exactly readable logs numbered from 1 whose next number is one past the end |
| Events.IntactExactly | broker/src/events.rs:148-162 | the same as one if-and-only-if over log and metadata |
| Events.EventLog.Replay | broker/src/events.rs:200-212 | foreign, unreadable and beyond-tail refusals, else the filtered events |
| Events.ReplayReturnsLaterEvents | broker/src/events.rs:200-212 | replay after a cursor returns exactly the later events |
| Events.ReplayRefusals | broker/src/events.rs:200-212 | foreign, unreadable, beyond the tail, in this order; a log that has handed out no number refuses no cursor |
| Events.PollExactly | broker/src/transaction/engine.rs:386-416 | a poll keeps a client that missed nothing so if and only if no append fell between its replay and its cursor |
| Events.FollowingDeliversOnce | broker/src/transaction/engine.rs:386-416 | following returned cursors over appends and reopenings delivers each event once and in order, when nothing falls in the gap |
| Events.GapIsNeverMadeUp | broker/src/transaction/engine.rs:386-416 | every event appended in the gap of a poll is passed by, and no later polls, appends or reopenings deliver it |
| Events.GapIsReached | broker/src/transaction/engine.rs:386-416 | a first poll with one append in its gap is such a run |
| Events.SequencesAreConsecutive | broker/src/events.rs:169-198 | stored numbers are 1 to n in every such run, whatever falls in the gaps |
| Idempotency.LoadAll | broker/src/storage/idempotency.rs:30-51 | reading the files in any order fails if and only if one cannot be read or parsed, and else gives every key the entry of one of its files, and with names that match exactly that file's |
| Idempotency.IdempotencyStore.Insert | broker/src/storage/idempotency.rs:57-69 | files after each step; memory follows only a complete write |
| Idempotency.IdempotencyStore.Remove | broker/src/storage/idempotency.rs:71-79 | removes whatever file sits under the key's hash, then the entry |
| Idempotency.IdempotencyStore.MergeFromWal | broker/src/storage/idempotency.rs:81-106 | completes the entries from the records in order |
| Idempotency.MergedExactly | broker/src/storage/idempotency.rs:81-106 | merging keeps every entry that was there, adds only entries some record stands for, and misses none |
| Idempotency.SameAgentNeverCollides | broker/src/transaction/engine.rs:734-736 | two keys of one agent never share a joined string |
| Idempotency.CollisionExactly | broker/src/transaction/engine.rs:734-736 | keys of two agents can share a joined string if and only if one agent id shadows the other |
| Idempotency.ShadowsExactly | broker/src/transaction/engine.rs:734-736 | an agent shadows exactly the agents whose id is its own, a colon and an operation name, alone or followed by a colon and anything |
| Idempotency.ShadowingCollides | broker/src/transaction/engine.rs:734-736 | next to every agent id there is one it shadows, and each key of that one collides with a key of the first |
| Recovery.ValidateWalSemantics | broker/src/transaction/recovery.rs:13-60 | grouping and checking chains accepts exactly version-1 records of broker-owned states whose chains start Proposed, keep their identity and follow the table |
| Recovery.ValidateEventsAgainstWal | broker/src/transaction/recovery.rs:67-115 | accepts exactly readable events whose states are, per transaction, a prefix of the WAL's |
| Recovery.RebuildTable | broker/src/transaction/engine.rs:133-154 | the table of the latest record of each transaction and the largest number |
| Recovery.TableHoldsLast | broker/src/transaction/engine.rs:133-154 | the rebuilt table holds, for exactly the known transactions, the last record of the chain |
| Recovery.AcceptedChainsArePaths | broker/src/transaction/recovery.rs:13-60 | an accepted chain is a path of at most four broker-owned states with one identity |
| Recovery.ChainsExactly | broker/src/transaction/recovery.rs:25-60 | a chain is accepted if and only if its states are Proposed, Testing, Applying, Probation in order from the first, or some of the first three and then Rejected, and its records have one identity |
| Recovery.SemanticsExactly | broker/src/transaction/recovery.rs:13-60 | numbered records are accepted if and only if they are of version 1 and every transaction's records are such a chain |
| EngineTraces.TraceIsEffect | broker/src/transaction/engine.rs:170-675 | applying a call's listed disk steps yields the call's disk, for every call and fault |
| EngineTraces.CrashIsFault | broker/src/transaction/engine.rs:170-675 | a crash between any two steps of a call leaves the disk of the same call under some storage fault |
| EngineRuns.HoleNeverRecovers | broker/src/storage/wal.rs:218-230 | a number missing below the checkpoint or a later record is never accepted |
| EngineRuns.CommitEnds | broker/src/transaction/engine.rs:476-545 | what every ending of a commit leaves of log, checkpoint, table and number |
| EngineRuns.RunsKeepInvariant | broker/src/transaction/engine.rs:98-168 | in every run in which no call was misled by a write it got to, reopening finds a hole or rebuilds the table held in memory |
| EngineRuns.SuccessfulStep | broker/src/transaction/engine.rs:418-474 | a step reported as done was the caller's own, allowed by the table, and moved exactly that transaction to that state; an apply found the base unmoved |
| EngineRuns.SuccessfulProposal | broker/src/transaction/engine.rs:170-263 | a proposal reported as done added one Proposed transaction owned by its caller and nothing else |
| EngineRuns.RefusedApply | broker/src/transaction/engine.rs:624-675 | an apply refused for its base, having done its work, rejected exactly that transaction because the base had moved |
| EngineLaws.TestsExactly | broker/src/transaction/engine.rs:264-283 | a test commits if and only if it is outside safe mode on the caller's Proposed transaction; other states are InvalidTransition; each refusal by the first test that fails; record and reply in full |
| EngineLaws.AppliesExactly | broker/src/transaction/engine.rs:316-342 | an apply under a new key commits if and only if the caller owns the transaction and, on an unmoved base, it is Testing: then as Applying, on a moved base as Rejected; each refusal by the first test that fails |
| EngineLaws.AdvancesExactly | broker/src/transaction/engine.rs:344-367 | an advance commits if and only if it is on the caller's Applying transaction; from Probation on it is the watchdog's |
| EngineLaws.ProposesExactly | broker/src/transaction/engine.rs:202-263 | a proposal under a new key commits if and only if the adapter stages it; record, identity and reply in full |
| EngineLaws.KnownKeysAnswer | broker/src/transaction/engine.rs:702-732 | a key in the index answers the stored result, or a conflict for other parameters, and touches nothing; safe mode answers nothing else |
| EngineLaws.LoggedKeysAnswer | broker/src/transaction/engine.rs:184-202 | a key found only in the log is a conflict for other parameters; for the same it is written back, a proposal's event is appended once more, and the stored result is the answer unless a write fails |
| EngineLaws.NewestDecides | broker/src/transaction/engine.rs:566-602 | the newest record that carries the key and either differs in parameters or holds a result decides: conflict or that result |
| EngineLaws.UndecidedIsMissing | broker/src/transaction/engine.rs:566-602 | without such a record the key is unknown |
| EngineLaws.AppendErrors | broker/src/transaction/engine.rs:476-533 | an append that fails leaves table and mode, uses up the number, and is a storage error |
| EngineLaws.IndexErrors | broker/src/transaction/engine.rs:442-465 | after an index error a proposal keeps its record, a step is taken back, a refusal keeps record and event |
| EngineLaws.EventErrors | broker/src/transaction/engine.rs:535-558 | an event error latches safe mode; the record is taken back, the entry forgotten, a refusal's old table restored, unless the removal fails |
| EngineLaws.NoErrors | broker/src/transaction/engine.rs:418-533 | without an error: record in the table, entry in the index, event told, success |
| EngineLaws.CommitDisks | broker/src/transaction/engine.rs:221-253 | log, events and index files after a proposal or step under every fate of its writes, the revert and the removal included |
| EngineLaws.RefusalDisks | broker/src/transaction/engine.rs:624-675 | the same for a refusal, whose event comes before its index entry |
| EngineLaws.OpensExactly | broker/src/transaction/engine.rs:98-168 | the engine opens outside safe mode if and only if records, checkpoint, events, chains and their agreement are as listed |
| EngineLaws.OpensWith | broker/src/transaction/engine.rs:125-168 | it then holds each transaction's last record and goes on with the last number; in safe mode it holds nothing |
| EngineLaws.MergesExactly | broker/src/storage/idempotency.rs:81-127 | which records stand for an index entry, and for which |
| EngineLaws.CarriesExactly | broker/src/transaction/engine.rs:566-602 | which records carry a key |
| EngineRuns.CrashReopensBeforeOrAfter | broker/src/transaction/engine.rs:98-168 | a crash between any two steps of propose, test, apply, refusal or advance, after any such run, reopens to the table before the call, the table after it, or safe mode |
| EngineRuns.RestartKeepsTable | broker/src/transaction/engine.rs:98-168 | a restart outside safe mode shows exactly the table in memory |
| EngineIdempotency.LookupExactly | broker/src/transaction/engine.rs:566-602 | with unique bindings the backward scan finds the one record carrying the key, or nothing |
| EngineIdempotency.RunsKeepKeys | broker/src/storage/idempotency.rs:81-106 | in every run index files and entries agree with the records, or only with records recovery cannot accept |
| EngineIdempotency.NoBindingTwice | broker/src/transaction/engine.rs:566-602 | no run, with any faults and crashes, leaves two records with one binding |
| EngineIdempotency.LogOnlyGrows | broker/src/transaction/engine.rs:476-545 | a finished action never takes away an earlier record |
| EngineIdempotency.CarriedKeyIsReplayed | broker/src/transaction/engine.rs:170-202 | once a record carries a binding, every later call with it is answered with the stored result, or as a conflict if its parameters differ, and adds no record |
| EngineIdempotency.AcknowledgedIsCarried | broker/src/transaction/engine.rs:221-263 | an acknowledged propose, apply or refusal has added one record that carries its binding and outcome |
| EngineIdempotency.RetryReturnsSameReply | broker/src/transaction/engine.rs:285-316 | a retried acknowledged call gets the same answer and adds nothing, whatever faults, crashes and restarts lie between |
| EngineFaultFree.CompleteCommitExtends | broker/src/transaction/engine.rs:418-533 | a complete commit adds one record, one event and at most one index entry, and nothing else |
| EngineFaultFree.ReopensExactly | broker/src/transaction/recovery.rs:67-87 | from a sound state a complete transition can be reopened if and only if the table allows it and all earlier transitions of that transaction have their events |
| EngineFaultFree.LegalRunsStayExact | broker/src/transaction/engine.rs:418-533 | in every legal fault-free run chains are legal and events match records one for one |
| EngineFaultFree.ReopeningRebuilds | broker/src/transaction/engine.rs:98-168 | reopening after such a run is never refused and rebuilds the same table and numbers |
| EngineFaultFree.ChainsAndEventsMatch | broker/src/transaction/recovery.rs:13-115 | each transaction's records form a path of the table with one identity, and its events report exactly those states |
| EngineFailures.RefusalReopensExactly | broker/src/transaction/engine.rs:624-675 | after a moved-base refusal the engine can be reopened if and only if the transaction was Proposed, Testing or Applying |
| EngineWitnesses.RefusalStrandsBoth | broker/src/transaction/engine.rs:323-331 | fault-free runs from a fresh store reach Probation and Rejected, and a moved-base refusal there is served and leaves a disk that opens in safe mode |
| EngineLostEvents.CrashLosesEvent | broker/src/transaction/engine.rs:442-467 | a crash after the four steps of a call's append leaves the record and checkpoint in place and everything else as before |
| EngineLostEvents.CrashedCallReopens | broker/src/transaction/engine.rs:98-168 | after any legal run, such a crash and a restart open outside safe mode with the transition in the table and its event missing |
| EngineLostEvents.CrashedTransactionIsBlocked | broker/src/transaction/recovery.rs:67-87 | any further transition of that transaction, served and reported as done, leaves a disk that opens in safe mode |
| EngineLostEvents.LostEventIsNeverMadeUp | broker/src/transaction/engine.rs:170-192 | in no later run, with any faults, crashes, restarts and retries, is the lost event of a transition other than a rejection made up for |
| EngineLostEvents.LostEventMadeUpExactly | broker/src/transaction/engine.rs:624-675 | some later run makes up for a lost event if and only if it was a rejection's |
| EngineWitnesses.LossIsReachable | broker/src/transaction/engine.rs:170-263 | one start and one proposal reach such a crash |
| EngineWitnesses.RejectionLossIsReachable | broker/src/transaction/engine.rs:624-675 | a run ending in a moved-base refusal reaches the crash that loses a rejection's event, the case that can be made up for |
| EngineFailures.FailedAppendReopensExactly | broker/src/storage/wal.rs:154-175 | an append that failed, then a restart: the old table if no step took effect, the failed transition if all did, safe mode otherwise |
| EngineFailures.SwallowedAppendExactly | broker/src/transaction/engine.rs:490-518 | an append that failed, one more complete transition, then a restart: the failed one shows in the table if and only if its record was renamed and the next is of another transaction; otherwise safe mode |
| EngineFailures.FailedRevertReopensExactly | broker/src/transaction/engine.rs:455-465 | a step whose index entry and revert failed stays in memory; a restart shows it if the revert did nothing, the old table if the revert did everything, safe mode otherwise |
| EngineFailures.DivergenceExactly | broker/src/transaction/engine.rs:418-545 | after one call that leaves the engine in service, some fault-free continuation reopens to neither the live table nor safe mode if and only if the transition was legal and its append failed after two or more steps or its revert after three |
| EngineWitnesses.AppendLeadsAstray | broker/src/storage/wal.rs:162-174 | a run and an append fault for which it happens |
| EngineWitnesses.RevertLeadsAstray | broker/src/storage/wal.rs:177-198 | a run and a revert fault for which it happens |
| EngineFailures.LeftoverEntryExactly | broker/src/transaction/engine.rs:249-253 | after a proposal whose event failed at any of its steps and whose record was taken back: safe mode if the event wrote anything; otherwise the retry is answered from a leftover index entry, with no record behind it, if and only if the entry's removal had no effect |
| EngineWitnesses.LeftoverIsReached | broker/src/transaction/engine.rs:249-253 | a start, a proposal whose event and removal fail, and a restart: outside safe mode, every retry is answered from the entry, and no record holds the transaction |
| EngineEvents.EventNumbersAreConsecutive | broker/src/events.rs:169-198 | in every engine run, whatever fails or crashes, stored event numbers are 1 to n |
| EngineFollowers.AskExactly | broker/src/transaction/engine.rs:386-416 | a poll gives a client that is up to date everything stored when it asks, and leaves it up to date if and only if no call in the gap tried an append |
| EngineFollowers.FollowersMissNothing | broker/src/transaction/engine.rs:386-416 | over every run of calls, faults, crashes and restarts, a client polling with quiet gaps has at every moment each stored event up to its cursor, once and in order |
| EngineWitnesses.UnquietGapIsReached | broker/src/transaction/engine.rs:386-416 | a proposal served in the gap of a first poll leaves the client behind |
| EngineObjects.TransactionEngine.OpenOwned | broker/src/transaction/engine.rs:98-168 | opening the stores, merging, validating and rebuilding yields the model's opened engine, whatever the index files are named |
| EngineObjects.TransactionEngine.PersistTransition | broker/src/transaction/engine.rs:476-533 | number taken first, record appended, table updated only on success |
| EngineObjects.TransactionEngine.RollbackTransition | broker/src/transaction/engine.rs:535-545 | revert, remove from the table, step the number back, enter safe mode; nothing of that if the revert fails |
| EngineObjects.TransactionEngine.AppendStateEvent | broker/src/transaction/engine.rs:547-558 | an event failure enters safe mode |
| EngineObjects.TransactionEngine.LookupIdempotencyFromWal | broker/src/transaction/engine.rs:566-602 | the backward loop computes the newest matching record's verdict; an unreadable log is no match |
| EngineObjects.TransactionEngine.CommitProposal | broker/src/transaction/engine.rs:221-253 | log, index, event, and the undo of each, for a proposal |
| EngineObjects.TransactionEngine.CommitStep | broker/src/transaction/engine.rs:442-473 | log, index, event, and the undo of each, for a transition |
| EngineObjects.TransactionEngine.CommitRefusal | broker/src/transaction/engine.rs:624-675 | log, event, index for a refusal, restoring the old snapshot when undone |
| EngineObjects.TransactionEngine.ConfigPropose | broker/src/transaction/engine.rs:170-263 | the whole new engine and reply of a proposal |
| EngineObjects.TransactionEngine.TxTest | broker/src/transaction/engine.rs:265-283 | the whole new engine and reply of a test call |
| EngineObjects.TransactionEngine.TxApply | broker/src/transaction/engine.rs:285-342 | the whole new engine and reply of an apply, moved base included |
| EngineObjects.TransactionEngine.AdvanceToProbation | broker/src/transaction/engine.rs:344-367 | the whole new engine and reply of an advance |
| EngineObjects.TransactionEngine.Transition | broker/src/transaction/engine.rs:418-474 | owner and table checks, then the commit |
| EngineObjects.TransactionEngine.EventsReplay | broker/src/transaction/engine.rs:386-416 | outside safe mode, with the events in order: exactly the events after the cursor, or all, and a cursor at the last one; a foreign or beyond-tail cursor is not found |
| Decimals.IntegerDetermines | broker/src/jcs.rs:119-133 | a printed integer and any text after it that starts with no digit can be told apart |
| Unicode.KeysOrdered | broker/src/jcs.rs:95-97 | the UTF-16 comparison is a strict total order on strings |
| Unicode.NotCodePointOrder | broker/src/jcs.rs:71-76 | it is not the code-point order: a character above U+FFFF sorts before U+E000 to U+FFFF |
| Unicode.Utf8Determines | broker/src/jcs.rs:44-48 | equal UTF-8 bytes are equal text |
| Unicode.UnitsExactly | broker/src/jcs.rs:95-97 | one unit in the basic plane, else a high and a low surrogate that spell the code |
| Unicode.OctetsExactly | broker/src/jcs.rs:44-48 | as few octets as the code needs, in the ranges of UTF-8, spelling the code |
| Jcs.WriteString | broker/src/jcs.rs:99-117 | the loop writes exactly the quoted, escaped string |
| Jcs.StringDetermines | broker/src/jcs.rs:99-117 | a printed string determines its characters, whatever follows it |
| JsonReader.StringReads | broker/src/jcs.rs:99-117 | a reader of JSON strings gives every written string back, whatever follows it |
| JsonReader.EscapesExactly | broker/src/jcs.rs:99-117 | escaped are exactly the quote, the backslash and the control characters, by letter where there is one |
| Jcs.SortKeys | broker/src/jcs.rs:71-77 | sorting lists every key once, in UTF-16 order |
| Jcs.WriteValue | broker/src/jcs.rs:50-92 | writes exactly the canonical text, or refuses exactly the values holding a non-interoperable number |
| Jcs.InteroperableExactly | broker/src/jcs.rs:119-133 | a value is refused if and only if a number beyond 2^53 - 1 in magnitude stands anywhere in it |
| Jcs.Canonicalize | broker/src/jcs.rs:44-48 | the canonical bytes, or the refusal |
| Jcs.PrintDetermines | broker/src/jcs.rs:50-92 | canonical texts followed by anything that starts with no digit are equal only for equal values and equal remainders |
| JsonReader.ValueReads | broker/src/jcs.rs:50-92 | a reader of canonical JSON gives every written value back, whatever follows it that is no digit |
| JsonReader.CanonicalTextReads | broker/src/jcs.rs:44-48 | a whole canonical text is read as exactly its value, with nothing left over |
| Jcs.CanonicalBytesDetermine | broker/src/jcs.rs:44-48 | equal canonical bytes are equal values |
| StrictJson.AdmitObject | proto/src/strict.rs:143-155 | the insertion loop admits exactly what the specification does, stopping at the first refused value or repeated key |
| StrictJson.AdmitsExactly | proto/src/strict.rs:143-155 | an object is admitted if and only if its values are and no key repeats, and then holds each member |
| StrictJson.NumbersExactly | proto/src/strict.rs:96-121 | integers up to 2^53 - 1 in magnitude are admitted as they are, other numbers not at all |
| StrictJson.AdmitsArrays | proto/src/strict.rs:135-141 | an array is admitted if and only if its items are, as the array of their values |
| StrictJson.MemberOrderIsIrrelevant | proto/src/strict.rs:143-155 | documents that differ in member order at any depth are refused together or admitted as one value, with equal canonical bytes |
| StrictJson.AdmittedIsInteroperable | proto/src/strict.rs:96-121 | every admitted document can be canonicalized |
| StrictJson.CanonicalBytesIdentifyValue | broker/src/jcs.rs:44-48 | two admitted documents have equal canonical bytes if and only if they have equal values |
| EcmaNumbers.WriteNumber | broker/src/jcs.rs:166-201 | the four branches with their zero-filling loops write the specified layout |
| EcmaNumbers.NumberTextDenotes | broker/src/jcs.rs:166-201 | the text denotes exactly sign, digits and power of ten, whichever layout is chosen |
| EcmaNumbers.ExponentWritten | broker/src/jcs.rs:142-200 | an exponent is written if and only if the number is at least 10^21 or below 10^-6 |
| EcmaNumbers.ScientificForm | broker/src/jcs.rs:142-200 | with an exponent: first digit, point and other digits if any, signed exponent |
| EcmaNumbers.PlainForm | broker/src/jcs.rs:142-200 | without one: digits and zeros, a point after the first n digits, or 0. and zeros in front |
| EcmaNumbers.NumberTextDetermines | broker/src/jcs.rs:166-201 | distinct signs, digits or exponents never print alike |
| Digests.DigestOf | broker/src/digest.rs:49-75 | unsupported versions and non-interoperable arguments are refused; otherwise the hash of domain and canonical input |
| Digests.ManifestDigest | broker/src/digest.rs:94-106 | the hash of the manifest domain and canonical manifest, or the refusal |
| Digests.OperationPreimageDetermines | broker/src/digest.rs:32-75 | operation preimages are equal only for equal protocol, operation, version and arguments |
| Digests.OperationIsNoManifest | broker/src/digest.rs:94-106 | no operation preimage equals a manifest preimage |
| Digests.PreimageText | broker/src/digest.rs:60-104 | every preimage, of operations and manifests alike, is the domain followed by the canonical text |
| Digests.PreimageExactly | broker/src/digest.rs:21-60 | what is hashed: the protocol's own domain and the text of the three members in order |
| Digests.DomainsExactly | broker/src/digest.rs:21-104 | the domain of each protocol version and of manifests, spelled out |
| WireFrames.ReadFull | proto/src/frame.rs:158-173 | fills the buffer as far as the stream goes, whatever the chunks and interruptions |
| WireFrames.ReadFrame | proto/src/frame.rs:106-136 | what is read, and how much of the stream it takes, depends on the bytes and the limit alone unless the stream fails |
| WireFrames.FrameRefusals | proto/src/frame.rs:106-136 | end, short prefix, zero length, oversize and short body, in this order, and how much is taken from the stream |
| WireFrames.WriteFrame | proto/src/frame.rs:139-154 | refuses before writing exactly what the reader would refuse; success appends exactly the frame |
| WireFrames.ReadAll | proto/src/frame.rs:106-136 | reading frame after frame from a chunked, interrupted source gives exactly the bodies and the first error the bytes spell; a failing stream gives a beginning of them |
| WireFrames.Exchange | proto/src/frame.rs:106-154 | any list of writable bodies, written as frames and delivered in any chunks with any interruptions, is read back as that list and then a clean end |
| WireFrames.CutExchange | proto/src/frame.rs:106-136 | the same stream cut inside a frame gives the whole frames, then Truncated with the true byte counts, and never a body |
| Quota.QuotaLedger.TryAdmit | broker/src/quota.rs:65-95 | the new windows and verdict; a poisoned lock refuses and changes nothing |
| Quota.AdmitsExactly | broker/src/quota.rs:65-95 | after any calls, the next is admitted if and only if it has no limit or fewer than its limit were granted to its agent in its window, the later of today and the agent's latest day; the new window and count |
| Quota.UsedIsCount | broker/src/quota.rs:65-95 | the counter is the number of admissions in the current window, saturating, and later windows are unused |
| Quota.AdmissionsNeverExceedLimit | broker/src/quota.rs:65-95 | for any interleaving of agents and any clock readings, admissions within one window never exceed the largest limit an admitted call was held to |
| Quota.WindowsOnlyAdvance | broker/src/quota.rs:78-88 | no call moves a window back, lowers its count, or touches another agent's window |
| Policy.FailingSafety | broker/src/policy.rs:269-283 | some D or M touch is below its minimum |
| Policy.StageFourExactly | broker/src/policy.rs:321-341 | the ceiling passes exactly non-empty effect sets all of whose classes are within it |
| Policy.PermittedExactly | broker/src/policy.rs:230-341 | permitted calls told by class, minimum, policy and ceiling, without the stages |
| Policy.Evaluate | broker/src/policy.rs:230-267 | a call passes if and only if it is permitted and the ledger admits it; a refusal names the first refusing stage; refusals at stages one to four leave the ledger unchanged |

## Left out

- JSON text coding of the broker's records, events and index files, the parsers' freedom (white space, field order) in the watchdog's, base64 cursors, UUID and ULID generation and parsing, SHA-256: library code, taken as values, inputs or an abstract function.
- Rust's shortest-digit formatting of doubles, zero and non-finite doubles: the number layout takes the sign, the trimmed digits and the exponent as input.
- The 64-bit saturation of the broker's sequence numbers: they are unbounded naturals here. The watchdog's numbers and the quota counters keep their 64-bit limits.
- I/O errors while the broker opens its directories, and an unparsable checkpoint, metadata or index file at that point: opening reads what earlier steps wrote (`LoadAll` by itself covers unparsable index files).
- Disk reordering below fsync and directory entries lost by a power failure.
- The two-lock gap of `events_replay` inside `EngineObjects`: the object is single-threaded; the gap is the `between` of a poll in `Events` and the `gap` of one in `EngineFollowers`.
- `tx_status`, `admitted_today` and other read-only accessors: single lookups.
- Jcs.WriteValue: does not print doubles, because strict documents hold integers only (proto/src/strict.rs:115-121); the double layout is `EcmaNumbers`.
- Jcs.Canonicalize: the same value domain, without doubles.
- Sockets, peer credentials beyond "is the broker", Landlock, topology inspection, signals, timeouts, the accept loop and the serving loop of the frame reader.
- The CLI, the MCP gateway, JSON Schemas, YAML manifests, capability derivation, safety ranks, Nix adapters and promotion.
