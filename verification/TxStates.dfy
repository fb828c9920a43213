/** Transaction states and the transitions the broker may make on its own authority. */
module TxStates {

  /** The wire vocabulary; `Idle` doubles as the engine's "no transaction yet". */
  datatype TxState =
    | Idle | Proposed | Testing | Applying | Probation | Rejected
    | ProbationPassed | Committing | Committed | Reverting | Reverted

  predicate WatchdogOwned(s: TxState) {
    s.ProbationPassed? || s.Committing? || s.Committed? || s.Reverting? || s.Reverted?
  }

  predicate BrokerOwned(s: TxState) {
    s.Proposed? || s.Testing? || s.Applying? || s.Probation? || s.Rejected?
  }

  predicate BrokerMayEnter(from: TxState, to: TxState) {
    match from
    case Idle => to.Proposed?
    case Proposed => to.Testing? || to.Rejected?
    case Testing => to.Applying? || to.Rejected?
    case Applying => to.Probation? || to.Rejected?
    case _ => false
  }

  /** How far a transaction has come; a terminal state ranks highest. */
  function Rank(s: TxState): nat {
    match s
    case Idle => 0
    case Proposed => 1
    case Testing => 2
    case Applying => 3
    case _ => 4
  }

  /** Every legal transition moves forward and stays among the broker's own states. */
  lemma TransitionsAdvance(from: TxState, to: TxState)
    requires BrokerMayEnter(from, to)
    ensures Rank(from) < Rank(to) && BrokerOwned(to) && !WatchdogOwned(to)
  {
  }

  /** Every state is the watchdog's or the broker's, or means that there is no transaction yet. */
  lemma OwnersExactly(s: TxState)
    ensures WatchdogOwned(s) <==> s !in {Idle, Proposed, Testing, Applying, Probation, Rejected}
    ensures BrokerOwned(s) <==> s in {Proposed, Testing, Applying, Probation, Rejected}
  {
  }

  /** The table is one path, which each state but its last may leave for Rejected. */
  lemma TransitionsExactly(from: TxState, to: TxState)
    ensures BrokerMayEnter(from, to) <==>
            (from, to) in {(Idle, Proposed), (Proposed, Testing), (Testing, Applying), (Applying, Probation),
                           (Proposed, Rejected), (Testing, Rejected), (Applying, Rejected)}
  {
  }
}
