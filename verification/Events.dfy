/** The append-only event log with its metadata file, and replay from a client-held cursor. */
module Events {
  import opened Wrappers
  import opened TxStates
  import opened Wal

  // ----- Events and their durable form -----

  /** An event payload before its text coding; `Unparsable` is any text that is not a state payload. */
  datatype Payload = TxStatePayload(txId: string, state: TxState) | Unparsable(text: string)

  datatype EventRecord = EventRecord(kind: string, payload: Payload)
  datatype StoredEvent = StoredEvent(seqNo: nat, kind: string, payload: Payload)

  const TX_STATE_KIND := "tx.state"

  datatype EventMeta = EventMeta(logId: string, nextSeq: nat)

  /**
   How the log file ends: at a line break, inside a line, at the end of a line whose break is
   missing, or with a line that was begun after either of the two and so can never be parsed.
   */
  datatype Tail = Clean | Partial | Unended | Garbled

  datatype EventDisk = EventDisk(lines: seq<StoredEvent>, tail: Tail, meta: Option<EventMeta>)

  const EMPTY_EVENTS := EventDisk([], Clean, None)

  datatype EventStep =
    | BeginLine
    | CompleteLine(event: StoredEvent)
    | EndLine
    | WriteMetaTemp
    | RenameMeta(meta: EventMeta)

  function EventApply(d: EventDisk, step: EventStep): EventDisk {
    match step
    case BeginLine => d.(tail := if d.tail.Clean? then Partial else Garbled)
    case CompleteLine(e) => if d.tail.Partial? then d.(lines := d.lines + [e], tail := Unended) else d
    case EndLine => if d.tail.Unended? then d.(tail := Clean) else d
    case WriteMetaTemp => d
    case RenameMeta(meta) => d.(meta := Some(meta))
  }

  function EventApplyAll(d: EventDisk, steps: seq<EventStep>): EventDisk {
    if steps == [] then d else EventApply(EventApplyAll(d, steps[..|steps| - 1]), steps[|steps| - 1])
  }

  function EventSteps(e: StoredEvent, meta: EventMeta): seq<EventStep> {
    [BeginLine, CompleteLine(e), EndLine, WriteMetaTemp, RenameMeta(meta)]
  }

  function EventRun(d: EventDisk, steps: seq<EventStep>, io: Io): EventDisk {
    EventApplyAll(d, steps[..StepsDone(io, |steps|)])
  }

  /** The log as text can be read back unless its last line is cut short or garbled. */
  function ReadAll(d: EventDisk): Option<seq<StoredEvent>> {
    if d.tail.Partial? || d.tail.Garbled? then None else Some(d.lines)
  }

  predicate EventsNumbered(lines: seq<StoredEvent>) {
    forall i :: 0 <= i < |lines| ==> lines[i].seqNo == i + 1
  }

  /** What `validate_integrity` accepts, given the next sequence number held in memory. */
  predicate Intact(d: EventDisk, nextSeq: nat) {
    && ReadAll(d).Some?
    && nextSeq == (if d.lines == [] then 1 else d.lines[|d.lines| - 1].seqNo + 1)
    && EventsNumbered(d.lines)
  }

  /** Integrity says no more and no less than: readable, numbered from 1, next number is one past the end. */
  lemma IntactExactly(d: EventDisk, nextSeq: nat)
    ensures Intact(d, nextSeq) <==> ReadAll(d).Some? && EventsNumbered(d.lines) && nextSeq == |d.lines| + 1
  {
  }

  /** What an append cut after any number of its steps leaves. */
  lemma UnrollAnyEvent(d: EventDisk, e: StoredEvent, meta: EventMeta, io: Io)
    ensures var n := StepsDone(io, 5);
      EventRun(d, EventSteps(e, meta), io) ==
        EventDisk(if n < 2 || !d.tail.Clean? then d.lines else d.lines + [e],
                  if n == 0 then d.tail else if !d.tail.Clean? then Garbled
                  else if n == 1 then Partial else if n == 2 then Unended else Clean,
                  if n < 5 then d.meta else Some(meta))
  {
    var steps := EventSteps(e, meta);
    assert EventApplyAll(d, steps[..0]) == d;
    var d1 := EventApply(d, steps[0]);
    assert steps[..1][..0] == steps[..0] && EventApplyAll(d, steps[..1]) == d1;
    var d2 := EventApply(d1, steps[1]);
    assert steps[..2][..1] == steps[..1] && EventApplyAll(d, steps[..2]) == d2;
    var d3 := EventApply(d2, steps[2]);
    assert steps[..3][..2] == steps[..2] && EventApplyAll(d, steps[..3]) == d3;
    assert steps[..4][..3] == steps[..3] && EventApplyAll(d, steps[..4]) == d3;
    assert steps[..5][..4] == steps[..4];
  }

  /** The same for a log that ends at a line break. */
  lemma UnrollEvent(d: EventDisk, e: StoredEvent, meta: EventMeta, io: Io)
    requires d.tail.Clean?
    ensures var n := StepsDone(io, 5);
      EventRun(d, EventSteps(e, meta), io) ==
        EventDisk(if n < 2 then d.lines else d.lines + [e],
                  if n == 1 then Partial else if n == 2 then Unended else Clean,
                  if n < 5 then d.meta else Some(meta))
  {
    hide EventRun, EventSteps;
    UnrollAnyEvent(d, e, meta, io);
  }

  // ----- Replay -----

  datatype EventCursor = EventCursor(logId: string, seqNo: nat)
  datatype EventError = MalformedCursor | ForeignLog | BeyondTail | EventIo

  function After(lines: seq<StoredEvent>, seqNo: nat): seq<StoredEvent> {
    if lines == [] then []
    else
      var rest := After(lines[..|lines| - 1], seqNo);
      if lines[|lines| - 1].seqNo > seqNo then rest + [lines[|lines| - 1]] else rest
  }

  function ReplayFrom(d: EventDisk, meta: EventMeta, cursor: EventCursor): Result<seq<StoredEvent>, EventError> {
    if cursor.logId != meta.logId then Err(ForeignLog)
    else if ReadAll(d).None? then Err(MalformedCursor)
    else if cursor.seqNo > LastSeq(meta) && LastSeq(meta) > 0 then Err(BeyondTail)
    else Ok(After(d.lines, cursor.seqNo))
  }

  function LastSeq(meta: EventMeta): nat {
    if meta.nextSeq == 0 then 0 else meta.nextSeq - 1
  }

  /** Replay after a cursor returns exactly the later events, in order. */
  lemma {:induction false} ReplayReturnsLaterEvents(lines: seq<StoredEvent>, seqNo: nat)
    requires EventsNumbered(lines)
    ensures After(lines, seqNo) == if seqNo <= |lines| then lines[seqNo..] else []
  {
    if lines != [] {
      var init := lines[..|lines| - 1];
      ReplayReturnsLaterEvents(init, seqNo);
      if seqNo < |lines| {
        assert lines[seqNo..] == init[seqNo..] + [lines[|lines| - 1]];
      }
    }
  }

  /** Each refusal of a replay is that of the first test that fails; a log that has handed out no number refuses no cursor. */
  lemma ReplayRefusals(d: EventDisk, meta: EventMeta, cursor: EventCursor)
    ensures var r := ReplayFrom(d, meta, cursor);
      && (cursor.logId != meta.logId ==> r == Err(ForeignLog))
      && (cursor.logId == meta.logId && d.tail != Clean && d.tail != Unended ==> r == Err(MalformedCursor))
      && (cursor.logId == meta.logId && (d.tail == Clean || d.tail == Unended) ==>
            && (meta.nextSeq >= 2 && cursor.seqNo >= meta.nextSeq ==> r == Err(BeyondTail))
            && (meta.nextSeq < 2 || cursor.seqNo < meta.nextSeq ==> r == Ok(After(d.lines, cursor.seqNo))))
  {
  }

  // ----- The log object -----

  class EventLog {
    var disk: EventDisk
    var meta: EventMeta

    /** Metadata is created on first use; the log itself is not looked at here. */
    constructor Open(disk: EventDisk, newLogId: string)
      ensures this.disk == OpenedEvents(disk, newLogId)
      ensures Some(meta) == this.disk.meta
    {
      var m := if disk.meta.Some? then disk.meta.value else EventMeta(newLogId, 1);
      meta := m;
      this.disk := disk.(meta := Some(m));
    }

    method ValidateIntegrity() returns (ok: bool)
      ensures ok == Intact(disk, meta.nextSeq)
    {
      var events := ReadAll(disk);
      if events.None? {
        return false;
      }
      var lines := events.value;
      if meta.nextSeq != (if lines == [] then 1 else lines[|lines| - 1].seqNo + 1) {
        return false;
      }
      for i := 0 to |lines|
        invariant EventsNumbered(lines[..i])
      {
        if lines[i].seqNo != i + 1 {
          return false;
        }
      }
      return true;
    }

    /** The number in memory moves on even when the write then fails. */
    method Append(record: EventRecord, io: Io) returns (ok: bool)
      modifies this
      ensures meta == old(meta).(nextSeq := old(meta).nextSeq + 1)
      ensures ok == io.Completed?
      ensures var n, d, stored := StepsDone(io, 5), old(disk), StoredEvent(old(meta).nextSeq, record.kind, record.payload);
        disk == EventDisk(if n < 2 || !d.tail.Clean? then d.lines else d.lines + [stored],
                          if n == 0 then d.tail else if !d.tail.Clean? then Garbled
                          else if n == 1 then Partial else if n == 2 then Unended else Clean,
                          if n < 5 then d.meta else Some(meta))
      ensures disk == EventRun(old(disk), EventSteps(StoredEvent(old(meta).nextSeq, record.kind, record.payload), meta), io)
    {
      hide EventRun, EventSteps;
      var stored := StoredEvent(meta.nextSeq, record.kind, record.payload);
      meta := meta.(nextSeq := meta.nextSeq + 1);
      UnrollAnyEvent(disk, stored, meta, io);
      if io == FailedAfter(0) {
        return false;
      }
      // the line, which may stop short, then its end, then the sync
      var whole := disk.tail.Clean?;
      disk := disk.(tail := if whole then Partial else Garbled);
      if io == FailedAfter(1) {
        return false;
      }
      if whole {
        disk := disk.(lines := disk.lines + [stored], tail := Unended);
      }
      if io == FailedAfter(2) {
        return false;
      }
      if whole {
        disk := disk.(tail := Clean);
      }
      // the metadata's temporary file, then its rename
      if io == FailedAfter(3) || io == FailedAfter(4) {
        return false;
      }
      disk := disk.(meta := Some(meta));
      return io.Completed?;
    }

    method Replay(cursor: EventCursor) returns (reply: Result<seq<StoredEvent>, EventError>)
      ensures reply == ReplayFrom(disk, meta, cursor)
    {
      if cursor.logId != meta.logId {
        return Err(ForeignLog);
      }
      var events := ReadAll(disk);
      if events.None? {
        return Err(MalformedCursor);
      }
      if cursor.seqNo > LastSeq(meta) && LastSeq(meta) > 0 {
        return Err(BeyondTail);
      }
      var lines := events.value;
      var later := [];
      for i := 0 to |lines|
        invariant later == After(lines[..i], cursor.seqNo)
      {
        assert lines[..i + 1][..i] == lines[..i];
        if lines[i].seqNo > cursor.seqNo {
          later := later + [lines[i]];
        }
      }
      assert lines[..|lines|] == lines;
      return Ok(later);
    }

    method LatestCursor() returns (cursor: EventCursor)
      ensures cursor == EventCursor(meta.logId, LastSeq(meta))
    {
      return EventCursor(meta.logId, LastSeq(meta));
    }
  }

  function OpenedEvents(disk: EventDisk, newLogId: string): EventDisk {
    if disk.meta.Some? then disk else disk.(meta := Some(EventMeta(newLogId, 1)))
  }

  // ----- A client that follows the log -----

  /**
   Completed appends, reopenings, and polls. A poll is one `events_replay` call: it replays after
   the client's cursor under one lock and takes the next cursor under another, so `between` may be
   appended in the gap.
   */
  datatype FeedAction =
    | Publish(record: EventRecord)
    | Reopen
    | Poll(between: seq<EventRecord>)

  datatype Feed = Feed(disk: EventDisk, meta: EventMeta, cursor: EventCursor, delivered: seq<StoredEvent>)

  function Published(f: Feed, record: EventRecord): Feed {
    var next := f.meta.(nextSeq := f.meta.nextSeq + 1);
    var stored := StoredEvent(f.meta.nextSeq, record.kind, record.payload);
    f.(disk := EventRun(f.disk, EventSteps(stored, next), Completed), meta := next)
  }

  function PublishedAll(f: Feed, records: seq<EventRecord>): Feed {
    if records == [] then f else Published(PublishedAll(f, records[..|records| - 1]), records[|records| - 1])
  }

  function FeedStep(f: Feed, a: FeedAction): Feed {
    match a
    case Publish(record) => Published(f, record)
    case Reopen => if f.disk.meta.Some? then f.(meta := f.disk.meta.value) else f
    case Poll(between) =>
      var reply := ReplayFrom(f.disk, f.meta, f.cursor);
      var later := PublishedAll(f, between);
      if reply.Err? then later
      else later.(cursor := EventCursor(later.meta.logId, LastSeq(later.meta)), delivered := f.delivered + reply.value)
  }

  function FeedRun(f: Feed, actions: seq<FeedAction>): Feed {
    if actions == [] then f else FeedStep(FeedRun(f, actions[..|actions| - 1]), actions[|actions| - 1])
  }

  /** A new log and a client that starts at its beginning. */
  function NewFeed(logId: string): Feed {
    Feed(EventDisk([], Clean, Some(EventMeta(logId, 1))), EventMeta(logId, 1), EventCursor(logId, 0), [])
  }

  predicate FeedInv(f: Feed) {
    && f.disk.tail.Clean? && f.disk.meta == Some(f.meta)
    && EventsNumbered(f.disk.lines) && f.meta.nextSeq == |f.disk.lines| + 1
    && f.cursor.logId == f.meta.logId && f.cursor.seqNo <= |f.disk.lines|
  }

  /** Everything up to the cursor was delivered, once and in order. */
  predicate Caught(f: Feed)
    requires FeedInv(f)
  {
    f.delivered == f.disk.lines[..f.cursor.seqNo]
  }

  lemma PublishKeeps(f: Feed, record: EventRecord)
    requires FeedInv(f)
    ensures var f' := Published(f, record);
      && FeedInv(f') && f'.cursor == f.cursor && f'.delivered == f.delivered
      && f'.meta.logId == f.meta.logId
      && f'.disk.lines == f.disk.lines + [StoredEvent(f.meta.nextSeq, record.kind, record.payload)]
  {
    var next := f.meta.(nextSeq := f.meta.nextSeq + 1);
    UnrollEvent(f.disk, StoredEvent(f.meta.nextSeq, record.kind, record.payload), next, Completed);
  }

  lemma {:induction false} PublishAllKeeps(f: Feed, records: seq<EventRecord>)
    requires FeedInv(f)
    ensures var f' := PublishedAll(f, records);
      && FeedInv(f') && f'.cursor == f.cursor && f'.delivered == f.delivered && f'.meta.logId == f.meta.logId
      && |f'.disk.lines| == |f.disk.lines| + |records| && f.disk.lines <= f'.disk.lines
  {
    if records != [] {
      PublishAllKeeps(f, records[..|records| - 1]);
      PublishKeeps(PublishedAll(f, records[..|records| - 1]), records[|records| - 1]);
    }
  }

  /** One poll of a client that has missed nothing keeps it so exactly when nothing fell in the gap. */
  lemma PollExactly(f: Feed, between: seq<EventRecord>)
    requires FeedInv(f) && Caught(f)
    ensures var f' := FeedStep(f, Poll(between));
      && FeedInv(f') && f'.cursor.seqNo == |f'.disk.lines|
      && f'.delivered == f.disk.lines
      && (Caught(f') <==> between == [])
  {
    hide Published, EventRun, After;
    var lines, at := f.disk.lines, f.cursor.seqNo;
    ReplayReturnsLaterEvents(lines, at);
    assert lines[..at] + lines[at..] == lines;
    PublishAllKeeps(f, between);
    var f' := FeedStep(f, Poll(between));
    assert f'.delivered == lines;
    assert f'.disk.lines[..f'.cursor.seqNo] == f'.disk.lines;
    if between == [] {
      assert f'.disk == f.disk;
    }
  }

  /** The client has passed event `seqNo` by without being given it. */
  predicate Missed(f: Feed, seqNo: nat) {
    && FeedInv(f) && 1 <= seqNo <= f.cursor.seqNo
    && forall i :: 0 <= i < |f.delivered| ==> f.delivered[i].seqNo != seqNo
  }

  lemma MissedStays(f: Feed, a: FeedAction, seqNo: nat)
    requires Missed(f, seqNo)
    ensures Missed(FeedStep(f, a), seqNo)
  {
    hide Published, EventRun, After;
    match a {
      case Publish(record) => PublishKeeps(f, record);
      case Reopen =>
      case Poll(between) =>
        ReplayReturnsLaterEvents(f.disk.lines, f.cursor.seqNo);
        PublishAllKeeps(f, between);
    }
  }

  /** An event that fell into the gap of a poll is not delivered by any later poll. */
  lemma {:induction false} GapIsNeverMadeUp(f: Feed, between: seq<EventRecord>, later: seq<FeedAction>)
    requires FeedInv(f) && Caught(f) && between != []
    ensures var f1 := FeedStep(f, Poll(between));
      && FeedInv(f1) && !Caught(f1) && |f1.disk.lines| == |f.disk.lines| + |between|
      && forall n :: |f.disk.lines| < n <= |f1.disk.lines| ==> Missed(FeedRun(f1, later), n)
    decreases |later|
  {
    hide Published, EventRun, FeedStep, Missed;
    PollExactly(f, between);
    var f1 := FeedStep(f, Poll(between));
    FirstMissed(f, between);
    if later != [] {
      var init := later[..|later| - 1];
      GapIsNeverMadeUp(f, between, init);
      forall n | |f.disk.lines| < n <= |f1.disk.lines| ensures Missed(FeedRun(f1, later), n) {
        MissedStays(FeedRun(f1, init), later[|later| - 1], n);
      }
    }
  }

  lemma FirstMissed(f: Feed, between: seq<EventRecord>)
    requires FeedInv(f) && Caught(f)
    ensures var f1 := FeedStep(f, Poll(between));
      && |f1.disk.lines| == |f.disk.lines| + |between|
      && forall n :: |f.disk.lines| < n <= |f1.disk.lines| ==> Missed(f1, n)
  {
    hide Published, EventRun, After;
    PollExactly(f, between);
    PublishAllKeeps(f, between);
  }

  /** A run of one poll, with one append in its gap: the event is stored, passed by, and missed for good. */
  lemma GapIsReached(logId: string, record: EventRecord, later: seq<FeedAction>)
    ensures var f := FeedRun(NewFeed(logId), [Poll([record])]);
      && FeedInv(f) && !Caught(f)
      && f.disk.lines == [StoredEvent(1, record.kind, record.payload)] && Missed(FeedRun(f, later), 1)
  {
    hide EventRun, EventSteps, Missed;
    var run, f := [Poll([record])], NewFeed(logId);
    assert run[..0] == [] && FeedRun(f, []) == f;
    assert FeedRun(f, run) == FeedStep(f, run[0]);
    GapIsNeverMadeUp(f, [record], later);
    PublishKeeps(f, record);
    assert [record][..0] == [] && PublishedAll(f, []) == f;
    assert PublishedAll(f, [record]) == Published(f, record);
  }

  /**
   Following returned cursors across appends and reopenings delivers each event once and in order,
   as long as no append falls between a poll's replay and its cursor.
   */
  lemma {:induction false} FollowingDeliversOnce(logId: string, actions: seq<FeedAction>)
    requires forall i :: 0 <= i < |actions| && actions[i].Poll? ==> actions[i].between == []
    ensures var f := FeedRun(NewFeed(logId), actions);
      FeedInv(f) && Caught(f)
  {
    if actions != [] {
      var init := actions[..|actions| - 1];
      FollowingDeliversOnce(logId, init);
      var f := FeedRun(NewFeed(logId), init);
      match actions[|actions| - 1] {
        case Publish(record) => PublishKeeps(f, record);
        case Reopen =>
        case Poll(between) => PollExactly(f, between);
      }
    }
  }

  /** Stored sequence numbers are 1 to n in every such run, whatever falls into the gaps. */
  lemma {:induction false} SequencesAreConsecutive(logId: string, actions: seq<FeedAction>)
    ensures FeedInv(FeedRun(NewFeed(logId), actions))
  {
    if actions != [] {
      var init := actions[..|actions| - 1];
      SequencesAreConsecutive(logId, init);
      var f := FeedRun(NewFeed(logId), init);
      match actions[|actions| - 1] {
        case Publish(record) => PublishKeeps(f, record);
        case Reopen =>
        case Poll(between) => PublishAllKeeps(f, between);
      }
    }
  }
}
