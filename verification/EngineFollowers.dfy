/**
 A client that follows the engine's events through calls, storage faults, crashes and restarts: it
 gets every stored event once and in order, as long as nothing is appended in the gap of a poll.
 */
module EngineFollowers {
  import opened Wrappers
  import opened TxStates
  import opened Wal
  import opened Events
  import opened Idempotency
  import opened EngineModel
  import opened EngineTraces
  import opened EngineRuns
  import opened EngineEvents

  // ----- The client and the system it watches -----

  datatype Follower = Follower(cursor: Option<EventCursor>, delivered: seq<StoredEvent>)

  datatype Watched = Watched(sys: System, follower: Follower)

  /** `gap` holds the calls served between a poll's replay and its cursor. */
  datatype FollowAction = Act(action: Action) | Ask(gap: seq<(Call, Env)>)

  function Serves(calls: seq<(Call, Env)>): seq<Action> {
    seq(|calls|, i requires 0 <= i < |calls| => Serve(calls[i].0, calls[i].1))
  }

  /** The client appends what it is given and keeps the new cursor; a refusal leaves it as it was. */
  function Told(f: Follower, reply: Result<(seq<StoredEvent>, EventCursor), EngineError>): Follower {
    if reply.Err? then f else Follower(Some(reply.value.1), f.delivered + reply.value.0)
  }

  ghost function FollowStep(hash: HashFunction, w: Watched, a: FollowAction): (w': Watched)
    requires Named(hash, DiskOf(w.sys).index)
    ensures Named(hash, DiskOf(w'.sys).index)
  {
    match a
    case Act(action) => w.(sys := Step(hash, w.sys, action))
    case Ask(gap) =>
      if w.sys.Down? then w
      else
        CallsStayUp(hash, w.sys, gap);
        var later := Run(hash, w.sys, Serves(gap));
        Watched(later, Told(w.follower, Replied(w.sys.engine, w.follower.cursor, later.engine)))
  }

  ghost function FollowRun(hash: HashFunction, actions: seq<FollowAction>): (w: Watched)
    ensures Named(hash, DiskOf(w.sys).index)
  {
    if actions == [] then Watched(Down(FRESH_DISK), Follower(None, []))
    else FollowStep(hash, FollowRun(hash, actions[..|actions| - 1]), actions[|actions| - 1])
  }

  lemma {:induction false} CallsStayUp(hash: HashFunction, sys: System, calls: seq<(Call, Env)>)
    requires Named(hash, DiskOf(sys).index) && sys.Up?
    ensures Run(hash, sys, Serves(calls)).Up?
  {
    hide Perform;
    if calls != [] {
      ServesSnoc(calls);
      CallsStayUp(hash, sys, calls[..|calls| - 1]);
    }
  }

  lemma ServesSnoc(calls: seq<(Call, Env)>)
    requires calls != []
    ensures var n := |calls| - 1;
      Serves(calls)[..n] == Serves(calls[..n]) && Serves(calls)[n] == Serve(calls[n].0, calls[n].1)
  {
  }

  // ----- The log only grows -----

  /** The engine's memory and its disk are about one log. */
  predicate OneLog(e: Engine) {
    e.disk.events.meta.Some? && e.disk.events.meta.value.logId == e.mem.eventMeta.logId
  }

  predicate Sane(sys: System) {
    SystemEventsInOrder(sys) && (sys.Up? ==> OneLog(sys.engine))
  }

  /** Only lines are added, under the same log id; an unchanged number means that no append was tried. */
  predicate EventsGrow(e: Engine, e': Engine) {
    && e.disk.events.lines <= e'.disk.events.lines
    && e'.mem.eventMeta.logId == e.mem.eventMeta.logId && e.mem.eventMeta.nextSeq <= e'.mem.eventMeta.nextSeq
    && (e'.mem.eventMeta == e.mem.eventMeta ==> e'.disk.events == e.disk.events)
  }

  predicate LogGrows(d: EventDisk, d': EventDisk) {
    && d.lines <= d'.lines
    && (d.meta.Some? ==> d'.meta.Some? && d'.meta.value.logId == d.meta.value.logId)
  }

  lemma OneEventGrows(e: Engine, txId: string, state: TxState, io: Io, e': Engine)
    requires EngineEventsInOrder(e) && !e.mem.safeMode && OneLog(e) && AtMostOneEvent(e, txId, state, io, e')
    ensures EngineEventsInOrder(e') && OneLog(e') && EventsGrow(e, e')
  {
    hide EventRun, EventSteps, EventAppended, EngineEventsInOrder;
    OneEventKeepsOrder(e, txId, state, io, e');
    if EventAppended(e, txId, state, io, e') {
      AppendKeepsLog(e, txId, state, io, e');
    }
  }

  lemma AppendKeepsLog(e: Engine, txId: string, state: TxState, io: Io, e': Engine)
    requires EngineEventsInOrder(e) && !e.mem.safeMode && OneLog(e) && EventAppended(e, txId, state, io, e')
    ensures OneLog(e') && e'.mem.eventMeta == e.mem.eventMeta.(nextSeq := e.mem.eventMeta.nextSeq + 1)
  {
    hide EventRun, EventSteps;
    var meta := e.mem.eventMeta.(nextSeq := e.mem.eventMeta.nextSeq + 1);
    UnrollEvent(e.disk.events, StoredEvent(e.mem.eventMeta.nextSeq, TX_STATE_KIND, TxStatePayload(txId, state)), meta, io);
  }

  lemma CallGrowsEvents(hash: HashFunction, e: Engine, call: Call, env: Env)
    requires EngineEventsInOrder(e) && OneLog(e)
    ensures var e' := Perform(hash, e, call, env).engine;
      EngineEventsInOrder(e') && OneLog(e') && EventsGrow(e, e')
  {
    hide Perform, WorkFor, Commit, ReplayFound, AtMostOneEvent, EngineEventsInOrder;
    CallDoesItsWork(hash, e, call, env, env.faults);
    WorkNeedsNormalMode(e, call, env);
    match WorkFor(e, call, env) {
      case NoWork =>
      case Committing(flow, r, entry) =>
        CommitEvents(hash, flow, e, r, entry, env.faults);
        OneEventGrows(e, r.txId, r.state, env.faults.eventIo, Commit(hash, flow, e, r, entry, env.faults).engine);
      case WritingBack(op, entry) =>
        WriteBackEvents(hash, e, op, entry, env.faults);
        OneEventGrows(e, entry.result.txId, Proposed, env.faults.eventIo, ReplayFound(hash, e, op, entry, env.faults).engine);
    }
  }

  lemma {:induction false} CallsGrowEvents(hash: HashFunction, sys: System, calls: seq<(Call, Env)>)
    requires Named(hash, DiskOf(sys).index) && sys.Up? && Sane(sys)
    ensures var later := Run(hash, sys, Serves(calls));
      later.Up? && Sane(later) && EventsGrow(sys.engine, later.engine)
  {
    hide Perform, EngineEventsInOrder, EventsInOrder;
    OrderedDisk(sys.engine);
    if calls != [] {
      var init, last := calls[..|calls| - 1], calls[|calls| - 1];
      ServesSnoc(calls);
      CallsGrowEvents(hash, sys, init);
      var before := Run(hash, sys, Serves(init)).engine;
      CallGrowsEvents(hash, before, last.0, last.1);
      OrderedDisk(Perform(hash, before, last.0, last.1).engine);
    }
  }

  lemma OrderedDisk(e: Engine)
    ensures EngineEventsInOrder(e) ==> EventsInOrder(e.disk.events)
  {
  }

  lemma OpenGrowsEvents(hash: HashFunction, disk: Disk, newLogId: string)
    requires Named(hash, disk.index)
    ensures var e := Opened(hash, disk, newLogId);
      OneLog(e) && LogGrows(disk.events, e.disk.events)
  {
    hide Recovered, Recovery.SemanticsOk, Recovery.EventsMatch, Recovery.TableOf, Merged, Loaded, MaxSeq;
  }

  lemma StepGrowsEvents(hash: HashFunction, sys: System, a: Action)
    requires Named(hash, DiskOf(sys).index) && Sane(sys)
    ensures Sane(Step(hash, sys, a)) && LogGrows(DiskOf(sys).events, DiskOf(Step(hash, sys, a)).events)
  {
    hide Perform, Opened, CrashDisk, EventsInOrder, EngineEventsInOrder;
    StepKeepsEvents(hash, sys, a);
    match a {
      case Stop =>
      case Start(newLogId) =>
        if sys.Down? {
          OpenGrowsEvents(hash, sys.disk, newLogId);
        }
      case Serve(call, env) =>
        if sys.Up? {
          CallGrowsEvents(hash, sys.engine, call, env);
        }
      case CrashIn(call, env, after) =>
        if sys.Up? {
          var f := CrashDiskIsFaultDisk(hash, sys.engine, call, env, after);
          CallGrowsEvents(hash, sys.engine, call, env.(faults := f));
        }
    }
  }

  // ----- What the client has been given -----

  /** The stored events up to the client's cursor, once and in order. */
  predicate UpToDate(d: EventDisk, f: Follower) {
    match f.cursor
    case None => f.delivered == []
    case Some(c) =>
      && d.meta.Some? && c.logId == d.meta.value.logId
      && c.seqNo <= |d.lines| && f.delivered == d.lines[..c.seqNo]
  }

  lemma GrowthKeepsUpToDate(d: EventDisk, d': EventDisk, f: Follower)
    requires UpToDate(d, f) && LogGrows(d, d')
    ensures UpToDate(d', f)
  {
  }

  /** No append was tried between the two locks. */
  ghost predicate QuietGap(hash: HashFunction, sys: System, gap: seq<(Call, Env)>)
    requires Named(hash, DiskOf(sys).index) && sys.Up?
  {
    CallsStayUp(hash, sys, gap);
    Run(hash, sys, Serves(gap)).engine.mem.eventMeta == sys.engine.mem.eventMeta
  }

  lemma ReplyIsRest(e: Engine, f: Follower, later: Engine)
    requires EngineEventsInOrder(e) && OneLog(e) && !e.mem.safeMode && UpToDate(e.disk.events, f)
    ensures var f' := Told(f, Replied(e, f.cursor, later));
      && f'.delivered == e.disk.events.lines
      && f'.cursor == Some(EventCursor(later.mem.eventMeta.logId, LastSeq(later.mem.eventMeta)))
  {
    var lines, at := e.disk.events.lines, f.cursor.GetOr(EventCursor(e.mem.eventMeta.logId, 0)).seqNo;
    ReplayReturnsLaterEvents(lines, at);
    assert lines[..at] + lines[at..] == lines;
  }

  /**
   A poll outside safe mode gives a client that is up to date all events stored when it asks, and
   leaves it up to date exactly when no append was tried in the gap.
   */
  lemma AskExactly(hash: HashFunction, w: Watched, gap: seq<(Call, Env)>)
    requires Named(hash, DiskOf(w.sys).index) && w.sys.Up? && !w.sys.engine.mem.safeMode
    requires Sane(w.sys) && UpToDate(DiskOf(w.sys).events, w.follower)
    ensures var w' := FollowStep(hash, w, Ask(gap));
      && w'.follower.delivered == w.sys.engine.disk.events.lines
      && (UpToDate(DiskOf(w'.sys).events, w'.follower) <==> QuietGap(hash, w.sys, gap))
  {
    hide Run, Replied;
    CallsGrowEvents(hash, w.sys, gap);
    var e, e' := w.sys.engine, Run(hash, w.sys, Serves(gap)).engine;
    ReplyIsRest(e, w.follower, e');
    var w' := FollowStep(hash, w, Ask(gap));
    assert w'.sys.engine == e';
    if QuietGap(hash, w.sys, gap) {
      assert e'.disk.events == e.disk.events;
    } else {
      assert e'.mem.eventMeta.nextSeq > e.mem.eventMeta.nextSeq;
    }
  }

  /** Every poll that is answered has a quiet gap. */
  ghost predicate QuietAsks(hash: HashFunction, actions: seq<FollowAction>) {
    forall i :: 0 <= i < |actions| ==> QuietAsk(hash, FollowRun(hash, actions[..i]).sys, actions[i])
  }

  ghost predicate QuietAsk(hash: HashFunction, sys: System, a: FollowAction)
    requires Named(hash, DiskOf(sys).index)
  {
    a.Ask? && sys.Up? && !sys.engine.mem.safeMode ==> QuietGap(hash, sys, a.gap)
  }

  lemma RefusedAsk(hash: HashFunction, w: Watched, gap: seq<(Call, Env)>)
    requires Named(hash, DiskOf(w.sys).index) && w.sys.Up? && w.sys.engine.mem.safeMode
    ensures FollowStep(hash, w, Ask(gap)).follower == w.follower
  {
    hide Run;
  }

  /**
   Over every run of openings, calls, storage faults, crashes and stops, a client that polls with
   quiet gaps has at every moment been given exactly the stored events up to its cursor, each once
   and in the order of their numbers.
   */
  lemma {:induction false} FollowersMissNothing(hash: HashFunction, actions: seq<FollowAction>)
    requires QuietAsks(hash, actions)
    ensures var w := FollowRun(hash, actions);
      && Sane(w.sys) && UpToDate(DiskOf(w.sys).events, w.follower)
      && forall i :: 0 <= i < |w.follower.delivered| ==> w.follower.delivered[i].seqNo == i + 1
  {
    hide Step, Run, QuietGap, EventsInOrder, EngineEventsInOrder;
    if actions == [] {
      FreshIsSane();
    } else {
      var n := |actions| - 1;
      var init, a := actions[..n], actions[n];
      forall i | 0 <= i < n ensures QuietAsk(hash, FollowRun(hash, init[..i]).sys, init[i]) {
        assert init[..i] == actions[..i];
      }
      FollowersMissNothing(hash, init);
      assert QuietAsk(hash, FollowRun(hash, actions[..n]).sys, actions[n]);
      FollowKeeps(hash, FollowRun(hash, init), a);
    }
    SaneIsNumbered(FollowRun(hash, actions).sys);
  }

  lemma FreshIsSane()
    ensures Sane(Down(FRESH_DISK))
  {
  }

  lemma SaneIsNumbered(sys: System)
    requires Sane(sys)
    ensures EventsNumbered(DiskOf(sys).events.lines)
  {
  }

  lemma FollowKeeps(hash: HashFunction, w: Watched, a: FollowAction)
    requires Named(hash, DiskOf(w.sys).index) && Sane(w.sys) && UpToDate(DiskOf(w.sys).events, w.follower)
    requires QuietAsk(hash, w.sys, a)
    ensures var w' := FollowStep(hash, w, a);
      Sane(w'.sys) && UpToDate(DiskOf(w'.sys).events, w'.follower)
  {
    hide Step, Run, QuietGap, EventsInOrder, EngineEventsInOrder, Replied;
    match a {
      case Act(action) =>
        StepGrowsEvents(hash, w.sys, action);
        GrowthKeepsUpToDate(DiskOf(w.sys).events, DiskOf(Step(hash, w.sys, action)).events, w.follower);
      case Ask(gap) =>
        if w.sys.Up? {
          CallsGrowEvents(hash, w.sys, gap);
          var later := Run(hash, w.sys, Serves(gap));
          if w.sys.engine.mem.safeMode {
            RefusedAsk(hash, w, gap);
            GrowthKeepsUpToDate(DiskOf(w.sys).events, DiskOf(later).events, w.follower);
          } else {
            AskExactly(hash, w, gap);
          }
        }
    }
  }
}
