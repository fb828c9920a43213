/**
 Runs that reach the states in which the engine departs from what its callers were told: legal,
 free of storage faults up to the named step, and built for any hash function.
 */
module EngineWitnesses {
  import opened Wrappers
  import opened TxStates
  import opened Wal
  import opened Idempotency
  import opened Recovery
  import opened EngineModel
  import opened EngineTraces
  import opened EngineRuns
  import opened EngineIdempotency
  import opened EngineFaultFree
  import opened EngineFailures
  import opened EngineLostEvents
  import opened EngineEvents
  import opened EngineFollowers

  /** A legal run that has left the engine live with the transaction in the given state. */
  ghost predicate Reaches(hash: HashFunction, actions: seq<Action>, tx: string, state: TxState) {
    && LegalRun(hash, actions) && FromFresh(hash, actions).Up?
    && var txs := FromFresh(hash, actions).engine.mem.txs;
    tx in txs && txs[tx].state == state
  }

  lemma LegalOneMore(hash: HashFunction, actions: seq<Action>, a: Action)
    requires LegalRun(hash, actions) && LegalStep(FromFresh(hash, actions), a)
    ensures LegalRun(hash, actions + [a])
  {
    hide LegalStep;
    assert (actions + [a])[..|actions|] == actions;
  }

  lemma StartIsLegal(hash: HashFunction, newLogId: string)
    ensures LegalRun(hash, [Start(newLogId)]) && FromFresh(hash, [Start(newLogId)]).Up?
  {
    hide Opened;
    var none: seq<Action> := [];
    assert none + [Start(newLogId)] == [Start(newLogId)];
    RunOneMore(hash, none, Start(newLogId));
    LegalOneMore(hash, none, Start(newLogId));
  }

  /** A fault-free committing call moves its transaction to its record's state. */
  lemma ServedCommit(hash: HashFunction, actions: seq<Action>, call: Call, env: Env)
    requires LegalRun(hash, actions) && FromFresh(hash, actions).Up?
    requires LegalCall(FromFresh(hash, actions).engine, call, env) && WorkFor(FromFresh(hash, actions).engine, call, env).Committing?
    ensures var r := WorkFor(FromFresh(hash, actions).engine, call, env).record;
      Reaches(hash, actions + [Serve(call, env)], r.txId, r.state)
  {
    hide Perform, Commit, WorkFor, Exact, Run, LegalCall;
    var e := FromFresh(hash, actions).engine;
    LegalCallIsUntroubled(e, call, env);
    LegalOneMore(hash, actions, Serve(call, env));
    RunOneMore(hash, actions, Serve(call, env));
    CallDoesItsWork(hash, e, call, env, NO_FAULTS);
    WorkIsFresh(e, call, env);
    var Committing(flow, r, entry) := WorkFor(e, call, env);
    CompleteCommit(hash, flow, e, r, entry);
  }

  lemma LegalCallIsUntroubled(e: Engine, call: Call, env: Env)
    requires LegalCall(e, call, env)
    ensures env.faults == NO_FAULTS && env == env.(faults := NO_FAULTS)
  {
  }

  lemma {:induction false} LegalIsLive(hash: HashFunction, actions: seq<Action>)
    requires LegalRun(hash, actions) && FromFresh(hash, actions).Up?
    ensures Exact(hash, FromFresh(hash, actions).engine) && !FromFresh(hash, actions).engine.mem.safeMode
  {
    hide LegalRun, Run, DiskExact, IndexComplete, TableOf;
    LegalRunsStayExact(hash, actions);
  }

  lemma ReachesProposed(hash: HashFunction) returns (actions: seq<Action>, tx: string)
    ensures Reaches(hash, actions, tx, Proposed)
  {
    hide Perform, WorkFor, Run, DiskExact, IndexComplete, TableOf, RecordsOf;
    StartIsLegal(hash, "");
    LegalIsLive(hash, [Start("")]);
    var e := FromFresh(hash, [Start("")]).engine;
    var call, env := NewProposal(e);
    NoRecordsOf(e.disk.wal.records, env.freshTxId);
    ServedCommit(hash, [Start("")], call, env);
    actions, tx := [Start("")] + [Serve(call, env)], env.freshTxId;
  }

  /** The owner's next step, under a new key where one is needed and with the base unmoved. */
  lemma NextStep(e: Engine, tx: string, target: TxState) returns (call: Call, env: Env)
    requires tx in e.mem.txs && !e.mem.safeMode && BrokerMayEnter(e.mem.txs[tx].state, target)
    requires target.Testing? || target.Applying? || target.Probation?
    ensures LegalCall(e, call, env)
    ensures var w := WorkFor(e, call, env);
      w.Committing? && w.record.txId == tx && w.record.state == target
  {
    var records, owner := e.disk.wal.records, e.mem.txs[tx].identity;
    env := Env("", owner.baseRevision, Err(""), true, NO_FAULTS);
    if target.Testing? {
      call := Test(owner.agentId, owner.manifestDigest, tx);
    } else if target.Probation? {
      call := Advance(owner.agentId, owner.manifestDigest, tx);
    } else {
      var key := UnusedKey(e, owner.agentId, TxApply);
      call := ApplyTx(owner.agentId, owner.manifestDigest, tx, key, "");
      UncarriedIsMissing(records, KeyOf(call), call.fingerprint);
    }
  }

  lemma UnusedKey(e: Engine, agentId: string, op: Operation) returns (key: string)
    ensures IdemKey(agentId, op, key) !in e.mem.entries && Uncarried(e.disk.wal.records, IdemKey(agentId, op, key))
  {
    var records := e.disk.wal.records;
    key := NewName((set k | k in e.mem.entries :: k.key) + (set i | 0 <= i < |records| :: records[i].idemKey.GetOr("")));
    assert forall k :: k in e.mem.entries ==> k.key in (set l | l in e.mem.entries :: l.key);
    forall i | 0 <= i < |records| ensures !Carries(records[i], IdemKey(agentId, op, key)) {
      assert records[i].idemKey.GetOr("") in (set j | 0 <= j < |records| :: records[j].idemKey.GetOr(""));
    }
  }

  lemma ReachesNext(hash: HashFunction, actions: seq<Action>, tx: string, state: TxState, target: TxState)
    returns (more: seq<Action>)
    requires Reaches(hash, actions, tx, state) && BrokerMayEnter(state, target)
    requires target.Testing? || target.Applying? || target.Probation?
    ensures Reaches(hash, more, tx, target)
  {
    hide WorkFor, LegalRun, Run, LegalCall, DiskExact, IndexComplete, TableOf;
    LegalIsLive(hash, actions);
    var call, env := NextStep(FromFresh(hash, actions).engine, tx, target);
    ServedCommit(hash, actions, call, env);
    more := actions + [Serve(call, env)];
  }

  /** Probation is reached by a proposal, a test, an apply and an advance. */
  lemma ReachesProbation(hash: HashFunction) returns (actions: seq<Action>, tx: string)
    ensures Reaches(hash, actions, tx, Probation)
  {
    hide Reaches;
    actions, tx := ReachesProposed(hash);
    actions := ReachesNext(hash, actions, tx, Proposed, Testing);
    actions := ReachesNext(hash, actions, tx, Testing, Applying);
    actions := ReachesNext(hash, actions, tx, Applying, Probation);
  }

  /** An apply by the owner under a new key, with the base moved. */
  lemma MovedApply(e: Engine, tx: string) returns (call: Call, env: Env)
    requires tx in e.mem.txs && !e.mem.safeMode
    ensures env.faults == NO_FAULTS && call.ApplyTx? && call.txId == tx
    ensures var w := WorkFor(e, call, env);
      w.Committing? && w.flow.Refusing? && w.record.txId == tx && w.record.state.Rejected?
  {
    var owner := e.mem.txs[tx].identity;
    var key := UnusedKey(e, owner.agentId, TxApply);
    call := ApplyTx(owner.agentId, owner.manifestDigest, tx, key, "");
    var moved := owner.baseRevision.(etcGitCommit := owner.baseRevision.etcGitCommit + "x");
    assert |moved.etcGitCommit| == |owner.baseRevision.etcGitCommit| + 1;
    env := Env("", moved, Err(""), true, NO_FAULTS);
    UncarriedIsMissing(e.disk.wal.records, KeyOf(call), call.fingerprint);
  }

  /** Rejected is reached by a proposal and an apply whose base has moved. */
  lemma ReachesRejected(hash: HashFunction) returns (actions: seq<Action>, tx: string)
    ensures Reaches(hash, actions, tx, Rejected)
  {
    hide WorkFor, LegalRun, Run, DiskExact, IndexComplete, TableOf;
    actions, tx := ReachesProposed(hash);
    LegalIsLive(hash, actions);
    var call, env := MovedApply(FromFresh(hash, actions).engine, tx);
    ServedCommit(hash, actions, call, env);
    actions := actions + [Serve(call, env)];
  }

  /**
   In either of these states a further apply whose base has moved is served without a fault, and
   the engine, still in service, opens in safe mode at its next start.
   */
  lemma RefusalStrands(hash: HashFunction, actions: seq<Action>, tx: string, state: TxState, newLogId: string)
    returns (call: Call, env: Env)
    requires Reaches(hash, actions, tx, state) && !RefusableFrom(state)
    ensures env.faults == NO_FAULTS && call.ApplyTx? && call.txId == tx
    ensures var sys := FromFresh(hash, actions + [Serve(call, env)]);
      sys.Up? && !sys.engine.mem.safeMode && Opened(hash, sys.engine.disk, newLogId).mem.safeMode
  {
    hide Perform, Commit, WorkFor, LegalRun, Run, Exact, Opened;
    LegalIsLive(hash, actions);
    var e := FromFresh(hash, actions).engine;
    call, env := MovedApply(e, tx);
    RunOneMore(hash, actions, Serve(call, env));
    RefusalReopensExactly(hash, e, call, env, newLogId);
    CallDoesItsWork(hash, e, call, env, NO_FAULTS);
    var Committing(flow, r, entry) := WorkFor(e, call, env);
    CompleteCommit(hash, flow, e, r, entry);
    CommitOkTable(hash, flow, e, r, entry, NO_FAULTS);
  }

  /** Both states are reached, so both runs exist. */
  lemma RefusalStrandsBoth(hash: HashFunction, newLogId: string)
    ensures forall state: TxState :: state.Probation? || state.Rejected? ==>
              exists actions, tx, call, env :: Strands(hash, actions, tx, state, call, env, newLogId)
  {
    hide Reaches, Opened, Run, Strands;
    var a, tx := ReachesProbation(hash);
    StrandsFrom(hash, a, tx, Probation, newLogId);
    var b, tx' := ReachesRejected(hash);
    StrandsFrom(hash, b, tx', Rejected, newLogId);
  }

  ghost predicate Strands(
    hash: HashFunction, actions: seq<Action>, tx: string, state: TxState, call: Call, env: Env, newLogId: string)
  {
    && Reaches(hash, actions, tx, state) && env.faults == NO_FAULTS && call.ApplyTx? && call.txId == tx
    && var sys := FromFresh(hash, actions + [Serve(call, env)]);
    sys.Up? && !sys.engine.mem.safeMode && Opened(hash, sys.engine.disk, newLogId).mem.safeMode
  }

  lemma StrandsFrom(hash: HashFunction, actions: seq<Action>, tx: string, state: TxState, newLogId: string)
    requires Reaches(hash, actions, tx, state) && !RefusableFrom(state)
    ensures exists actions, tx, call, env :: Strands(hash, actions, tx, state, call, env, newLogId)
  {
    hide Reaches, Opened, Run;
    var call, env := RefusalStrands(hash, actions, tx, state, newLogId);
    assert Strands(hash, actions, tx, state, call, env, newLogId);
  }

  /** An event is lost in a run of one start and one proposal. */
  lemma LossIsReachable(hash: HashFunction, newLogId: string) returns (call: Call, env: Env)
    ensures LosesEvent(hash, [Start(newLogId)], call, env)
    ensures WorkFor(FromFresh(hash, [Start(newLogId)]).engine, call, env).record.state.Proposed?
  {
    hide WorkFor, LegalRun, Run, DiskExact, IndexComplete, TableOf, RecordsOf;
    StartIsLegal(hash, newLogId);
    LegalIsLive(hash, [Start(newLogId)]);
    var e := FromFresh(hash, [Start(newLogId)]).engine;
    call, env := NewProposal(e);
    NoRecordsOf(e.disk.wal.records, env.freshTxId);
  }

  /** A rejection's event is lost in a run that ends in a refused apply. */
  lemma RejectionLossIsReachable(hash: HashFunction) returns (actions: seq<Action>, call: Call, env: Env)
    ensures LosesEvent(hash, actions, call, env)
    ensures WorkFor(FromFresh(hash, actions).engine, call, env).record.state.Rejected?
  {
    hide WorkFor, LegalRun, Run, DiskExact, IndexComplete, TableOf, RecordsOf;
    var tx;
    actions, tx := ReachesProposed(hash);
    LegalIsLive(hash, actions);
    call, env := MovedApply(FromFresh(hash, actions).engine, tx);
  }

  /** The call, served with these faults after a legal run, leaves a live engine that later diverges from its disk. */
  ghost predicate LeadsAstray(hash: HashFunction, actions: seq<Action>, call: Call, env: Env) {
    && LegalRun(hash, actions) && FromFresh(hash, actions).Up?
    && var e := Perform(hash, FromFresh(hash, actions).engine, call, env).engine;
    && !e.mem.safeMode && Named(hash, e.disk.index)
    && exists later, newLogId :: Untroubled(later) && Diverges(hash, e, later, newLogId)
  }

  /** A first proposal whose append fails after its rename. */
  lemma AppendLeadsAstray(hash: HashFunction) returns (actions: seq<Action>, call: Call, env: Env)
    ensures env.faults == NO_FAULTS.(walIo := FailedAfter(2)) && LeadsAstray(hash, actions, call, env)
  {
    hide WorkFor, LegalRun, Run, DiskExact, IndexComplete, TableOf, RecordsOf, Perform, Commit, Diverges;
    StartIsLegal(hash, "");
    actions := [Start("")];
    LegalIsLive(hash, actions);
    var e := FromFresh(hash, actions).engine;
    var fine: Env;
    call, fine := NewProposal(e);
    NoRecordsOf(e.disk.wal.records, fine.freshTxId);
    env := fine.(faults := NO_FAULTS.(walIo := FailedAfter(2)));
    CallDoesItsWork(hash, e, call, fine, env.faults);
    var Committing(flow, r, entry) := WorkFor(e, call, env);
    ExactCounts(hash, e);
    FailedAppend(hash, flow, e, r, entry, env.faults);
    DivergenceExactly(hash, e, call, env);
  }

  /** An apply whose index entry fails and whose revert reports an error after all its steps. */
  lemma RevertLeadsAstray(hash: HashFunction) returns (actions: seq<Action>, call: Call, env: Env)
    ensures env.faults == NO_FAULTS.(indexIo := FailedAfter(0), revertIo := FailedAfter(3))
    ensures LeadsAstray(hash, actions, call, env)
  {
    hide WorkFor, LegalRun, Run, DiskExact, IndexComplete, TableOf, RecordsOf, Perform, Commit, Diverges, LegalCall;
    var tx;
    actions, tx := ReachesProposed(hash);
    actions := ReachesNext(hash, actions, tx, Proposed, Testing);
    LegalIsLive(hash, actions);
    var e := FromFresh(hash, actions).engine;
    var fine: Env;
    call, fine := NextStep(e, tx, Applying);
    env := fine.(faults := NO_FAULTS.(indexIo := FailedAfter(0), revertIo := FailedAfter(3)));
    CallDoesItsWork(hash, e, call, fine, env.faults);
    AppliesAreKeyedSteps(e, call, env);
    StepHasChain(hash, e, call, env);
    var Committing(flow, r, entry) := WorkFor(e, call, env);
    ExactCounts(hash, e);
    WorkIsFresh(e, call, env);
    SomeRecord(e.disk.wal.records, r.txId);
    FailedRevert(hash, e, r, entry, env.faults);
    DivergenceExactly(hash, e, call, env);
  }

  /** The index answers this proposal although no record holds its transaction. */
  ghost predicate AnsweredByLeftover(hash: HashFunction, e: Engine, call: Call, env: Env)
    requires call.Propose? && env.staged.Ok?
  {
    && !e.mem.safeMode && KeyOf(call) in e.mem.entries && Uncarried(e.disk.wal.records, KeyOf(call))
    && RecordsOf(e.disk.wal.records, env.freshTxId) == []
    && forall retry: Env :: retry.staged.Ok? ==>
         Perform(hash, e, call, retry).reply == Ok(ReplyOf(ProposedResult(env))) && Perform(hash, e, call, retry).engine == e
  }

  /** A run of a start, a proposal whose event and removal fail, and a restart leaves such an entry. */
  lemma LeftoverIsReached(hash: HashFunction, newLogId: string) returns (call: Call, env: Env)
    ensures call.Propose? && env.staged.Ok? && env.faults == NO_FAULTS.(eventIo := FailedAfter(0), removeIo := FailedAfter(0))
    ensures var sys := FromFresh(hash, [Start(""), Serve(call, env), Stop, Start(newLogId)]);
      sys.Up? && AnsweredByLeftover(hash, sys.engine, call, env)
  {
    hide WorkFor, LegalRun, Run, DiskExact, IndexComplete, TableOf, RecordsOf, Perform, Commit, Opened, LeftoverAnswers;
    StartIsLegal(hash, "");
    LegalIsLive(hash, [Start("")]);
    var e := FromFresh(hash, [Start("")]).engine;
    var fine: Env;
    call, fine := NewProposal(e);
    NoRecordsOf(e.disk.wal.records, fine.freshTxId);
    env := fine.(faults := NO_FAULTS.(eventIo := FailedAfter(0), removeIo := FailedAfter(0)));
    CallDoesItsWork(hash, e, call, fine, env.faults);
    ProposalWork(e, call, env);
    LeftoverEntryExactly(hash, e, call, env, newLogId, env);
    var reopened := Opened(hash, Perform(hash, e, call, env).engine.disk, newLogId);
    forall retry: Env | retry.staged.Ok?
      ensures Perform(hash, reopened, call, retry).reply == Ok(ReplyOf(ProposedResult(env)))
      ensures Perform(hash, reopened, call, retry).engine == reopened
    {
      LeftoverEntryExactly(hash, e, call, env, newLogId, retry);
      LeftoverSays(hash, call, env, reopened, retry);
    }
    LeftoverSays(hash, call, env, reopened, env);
    OpenLeavesLog(hash, Perform(hash, e, call, env).engine.disk, newLogId);
    RestartRun(hash, [Start("")], Serve(call, env), newLogId);
    assert [Start("")] + [Serve(call, env), Stop, Start(newLogId)] == [Start(""), Serve(call, env), Stop, Start(newLogId)];
  }

  lemma LeftoverSays(hash: HashFunction, call: Call, env: Env, reopened: Engine, retry: Env)
    requires call.Propose? && env.staged.Ok? && LeftoverAnswers(hash, call, env, reopened, retry)
    requires env.faults.removeIo == FailedAfter(0)
    ensures KeyOf(call) in reopened.mem.entries && Uncarried(reopened.disk.wal.records, KeyOf(call))
    ensures var o := Perform(hash, reopened, call, retry);
      o.reply == Ok(ReplyOf(ProposedResult(env))) && o.engine == reopened
  {
    hide Perform;
  }

  /** One more call, a stop and a start. */
  lemma RestartRun(hash: HashFunction, actions: seq<Action>, a: Action, newLogId: string)
    requires FromFresh(hash, actions).Up? && a.Serve?
    ensures var e := Perform(hash, FromFresh(hash, actions).engine, a.call, a.env).engine;
      && Named(hash, e.disk.index)
      && FromFresh(hash, actions + [a, Stop, Start(newLogId)]) == Up(Opened(hash, e.disk, newLogId))
  {
    hide Run, Perform, Opened;
    PerformKeepsNames(hash, FromFresh(hash, actions).engine, a.call, a.env);
    RunOneMore(hash, actions, a);
    RunOneMore(hash, actions + [a], Stop);
    RunOneMore(hash, actions + [a] + [Stop], Start(newLogId));
    assert actions + [a] + [Stop] + [Start(newLogId)] == actions + [a, Stop, Start(newLogId)];
  }

  /** A proposal served in the gap of a first poll leaves the client behind. */
  lemma UnquietGapIsReached(hash: HashFunction) returns (call: Call, env: Env)
    ensures env.faults == NO_FAULTS && call.Propose?
    ensures var w := FollowRun(hash, [Act(Start("")), Ask([(call, env)])]);
      w.sys.Up? && !w.sys.engine.mem.safeMode && !UpToDate(w.sys.engine.disk.events, w.follower)
  {
    hide WorkFor, LegalRun, Run, DiskExact, IndexComplete, TableOf, RecordsOf, Perform, Commit, QuietGap, Opened,
         EventsInOrder, EngineEventsInOrder, SnapOf;
    StartIsLegal(hash, "");
    LegalIsLive(hash, [Start("")]);
    var e := FromFresh(hash, [Start("")]).engine;
    call, env := NewProposal(e);
    NoRecordsOf(e.disk.wal.records, env.freshTxId);
    CallDoesItsWork(hash, e, call, env, NO_FAULTS);
    var Committing(flow, r, entry) := WorkFor(e, call, env);
    ExactIsSound(hash, e);
    SoundIsReady(e);
    SoundFacts(e);
    CompleteCommitExtends(hash, flow, e, r, entry);
    FirstFollowed(hash);
    var asks := [Act(Start("")), Ask([(call, env)])];
    assert asks[..1] == [Act(Start(""))];
    OneCallGap(hash, FromFresh(hash, [Start("")]), call, env);
    AskExactly(hash, FollowRun(hash, asks[..1]), [(call, env)]);
  }

  lemma FirstFollowed(hash: HashFunction)
    ensures FollowRun(hash, [Act(Start(""))]) == Watched(FromFresh(hash, [Start("")]), Follower(None, []))
    ensures Sane(FromFresh(hash, [Start("")]))
  {
    hide Opened, EventsInOrder, EngineEventsInOrder;
    var none: seq<Action>, asks := [], [Act(Start(""))];
    assert none + [Start("")] == [Start("")];
    RunOneMore(hash, none, Start(""));
    assert asks[..0] == [];
    FreshIsSane();
    StepGrowsEvents(hash, Down(FRESH_DISK), Start(""));
  }

  lemma OneCallGap(hash: HashFunction, sys: System, call: Call, env: Env)
    requires Named(hash, DiskOf(sys).index) && sys.Up?
    ensures var later := Run(hash, sys, Serves([(call, env)]));
      later == Up(Perform(hash, sys.engine, call, env).engine)
      && (QuietGap(hash, sys, [(call, env)]) <==> later.engine.mem.eventMeta == sys.engine.mem.eventMeta)
  {
    hide Perform;
    var gap := [(call, env)];
    ServesSnoc(gap);
    assert gap[..0] == [] && Serves([]) == [];
    assert Run(hash, sys, Serves(gap[..0])) == sys;
  }

  lemma AppliesAreKeyedSteps(e: Engine, call: Call, env: Env)
    ensures var w := WorkFor(e, call, env);
      w.Committing? && w.record.state.Applying? ==> w.flow.Stepping? && w.entry.Some? && !call.Propose?
  {
    hide LookupIn;
  }

  lemma SomeRecord(records: seq<WalRecord>, tx: string)
    requires RecordsOf(records, tx) != []
    ensures records != []
  {
  }
}
