/**
 Watchdog authority records: the strict schema, the lease policy, and the replay that turns a
 validated log back into the active authority.
 */
module AuthorityLog {
  import opened Bytes
  import opened Wrappers

  // ----- Time: signed nanoseconds since the Unix epoch, in the range of 64-bit seconds -----

  const NANOS_PER_SEC: int := 1_000_000_000
  const MAX_TIME: int := 0x7fff_ffff_ffff_ffff * NANOS_PER_SEC + (NANOS_PER_SEC - 1)
  const MIN_TIME: int := -0x8000_0000_0000_0000 * NANOS_PER_SEC
  const LEASE_WINDOW: int := 3600 * NANOS_PER_SEC

  type Time = t: int | MIN_TIME <= t <= MAX_TIME witness 0
  type WorkerGroupTag = t: int | 2 <= t <= 0x7fff_ffff witness 2

  /** `SystemTime::checked_add`. */
  function CheckedAdd(t: Time, d: nat): (r: Option<Time>)
    ensures r.Some? <==> t + d <= MAX_TIME
    ensures r.Some? ==> r.value == t + d
  {
    if t + d <= MAX_TIME then Some(t + d) else None
  }

  /** The frozen lease policy: the earlier of one window from now and the hard deadline. */
  function LeaseExpiryAt(observedAt: Time, hardDeadline: Time): (r: Option<Time>)
    ensures r.Some? ==> observedAt < r.value <= hardDeadline
    ensures r.Some? ==> r.value <= observedAt + LEASE_WINDOW
    ensures r.Some? ==> r.value == hardDeadline || r.value == observedAt + LEASE_WINDOW
    ensures r.None? <==> hardDeadline <= observedAt || observedAt + LEASE_WINDOW > MAX_TIME
  {
    if hardDeadline <= observedAt then None
    else match CheckedAdd(observedAt, LEASE_WINDOW)
      case None => None
      case Some(candidate) => Some(if candidate <= hardDeadline then candidate else hardDeadline)
  }

  // ----- Records -----

  datatype Kind = Armed | ProbationPassed | LeaseRenewed | BeginCommit | BeginRevert | Committed | Reverted

  predicate IsBegin(kind: Kind) {
    kind.BeginCommit? || kind.BeginRevert?
  }

  /** A stored instant: both halves are optional on the wire. */
  datatype Stamp = Stamp(secs: Option<U64>, nanos: Option<U32>)

  const NO_STAMP := Stamp(None, None)

  datatype AuthorityRecord = AuthorityRecord(
    sequence: U64, epoch: U64, kind: Kind,
    hostId: Option<string>, txId: Option<string>, base: Option<string>,
    leaseId: Option<string>, workerGroupTag: Option<WorkerGroupTag>,
    armedAt: Stamp, deadline: Stamp, leaseExpiresAt: Stamp, renewedAt: Stamp)

  datatype BoundSession = BoundSession(
    hostId: string, txId: string, epoch: U64, leaseId: string, workerGroupTag: WorkerGroupTag)

  predicate Present(s: Stamp) {
    s.secs.Some? || s.nanos.Some?
  }

  /** Seconds and nanoseconds of an instant; instants before the Unix epoch are refused. */
  function TimeParts(t: Time): (r: Option<Stamp>)
    ensures r.None? <==> t < 0
    ensures r.Some? ==> TimeField(r.value) == Some(t)
  {
    if t < 0 then None else Some(Stamp(Some(t / NANOS_PER_SEC), Some(t % NANOS_PER_SEC)))
  }

  function TimeField(s: Stamp): Option<Time> {
    if s.secs.None? || s.nanos.None? || s.nanos.value >= NANOS_PER_SEC then None
    else CheckedAdd(0, s.secs.value * NANOS_PER_SEC + s.nanos.value)
  }

  /** The binding fields are all present and non-empty. */
  predicate HasBinding(r: AuthorityRecord) {
    && r.hostId.Some? && r.txId.Some? && r.leaseId.Some? && r.workerGroupTag.Some?
    && r.hostId.value != "" && r.txId.value != "" && r.leaseId.value != ""
  }

  function BindingOf(r: AuthorityRecord): BoundSession
    requires HasBinding(r)
  {
    BoundSession(r.hostId.value, r.txId.value, r.epoch, r.leaseId.value, r.workerGroupTag.value)
  }

  /** `validate_schema`: which fields each kind must and must not carry. */
  predicate SchemaValid(r: AuthorityRecord) {
    && HasBinding(r)
    && match r.kind
       case Armed =>
         && r.base.Some? && r.base.value != ""
         && !Present(r.renewedAt)
         && var armedAt, deadline := TimeField(r.armedAt), TimeField(r.deadline);
            var expires := TimeField(r.leaseExpiresAt);
         && armedAt.Some? && deadline.Some? && expires.Some?
         && armedAt.value < deadline.value
         && expires == LeaseExpiryAt(armedAt.value, deadline.value)
       case LeaseRenewed =>
         && r.base.None? && !Present(r.armedAt) && !Present(r.deadline)
         && TimeField(r.renewedAt).Some? && TimeField(r.leaseExpiresAt).Some?
       case _ =>
         && r.base.None? && !Present(r.armedAt) && !Present(r.deadline)
         && !Present(r.leaseExpiresAt) && !Present(r.renewedAt)
  }

  // ----- Record constructors -----

  function ArmedRecord(sequence: U64, b: BoundSession, base: string, armedAt: Time, deadline: Time)
    : (r: Option<AuthorityRecord>)
    ensures r.Some? ==> r.value.kind.Armed? && r.value.sequence == sequence && r.value.epoch == b.epoch
  {
    var expires := LeaseExpiryAt(armedAt, deadline);
    if expires.None? || TimeParts(armedAt).None? || TimeParts(deadline).None? then None
    else
      Some(AuthorityRecord(sequence, b.epoch, Armed,
                           Some(b.hostId), Some(b.txId), Some(base), Some(b.leaseId), Some(b.workerGroupTag),
                           TimeParts(armedAt).value, TimeParts(deadline).value,
                           TimeParts(expires.value).value, NO_STAMP))
  }

  function LeaseRenewedRecord(sequence: U64, b: BoundSession, renewedAt: Time, hardDeadline: Time)
    : (r: Option<AuthorityRecord>)
    ensures r.Some? ==> r.value.kind.LeaseRenewed? && r.value.sequence == sequence && r.value.epoch == b.epoch
  {
    var expires := LeaseExpiryAt(renewedAt, hardDeadline);
    if expires.None? || TimeParts(renewedAt).None? then None
    else
      Some(AuthorityRecord(sequence, b.epoch, LeaseRenewed,
                           Some(b.hostId), Some(b.txId), None, Some(b.leaseId), Some(b.workerGroupTag),
                           NO_STAMP, NO_STAMP, TimeParts(expires.value).value, TimeParts(renewedAt).value))
  }

  function DecisionRecord(sequence: U64, kind: Kind, b: BoundSession): AuthorityRecord {
    AuthorityRecord(sequence, b.epoch, kind,
                    Some(b.hostId), Some(b.txId), None, Some(b.leaseId), Some(b.workerGroupTag),
                    NO_STAMP, NO_STAMP, NO_STAMP, NO_STAMP)
  }

  // ----- Replay -----

  datatype Authority = Authority(
    binding: BoundSession, base: string, armedAt: Time, deadline: Time,
    leaseExpiresAt: Time, chosen: Option<Kind>, logSeq: U64, lastActivity: Time)

  /** One iteration of `reconstruct_active_authority`; `None` on the outside is a rejection. */
  function ReplayRecord(active: Option<Authority>, r: AuthorityRecord): Option<Option<Authority>> {
    match r.kind
    case Armed =>
      if active.Some? || !HasBinding(r) || r.base.None? then None
      else
        var armedAt, deadline := TimeField(r.armedAt), TimeField(r.deadline);
        var expires := TimeField(r.leaseExpiresAt);
        if armedAt.None? || deadline.None? || expires.None? then None
        else Some(Some(Authority(BindingOf(r), r.base.value, armedAt.value, deadline.value,
                                 expires.value, None, r.sequence, armedAt.value)))
    case LeaseRenewed =>
      if active.None? || active.value.chosen.Some? || !HasBinding(r) || BindingOf(r) != active.value.binding then None
      else
        var a := active.value;
        var renewedAt, expires := TimeField(r.renewedAt), TimeField(r.leaseExpiresAt);
        if renewedAt.None? || expires.None? then None
        else if renewedAt.value < a.lastActivity || renewedAt.value >= a.leaseExpiresAt
                || renewedAt.value >= a.deadline then None
        else if expires != LeaseExpiryAt(renewedAt.value, a.deadline) then None
        else if expires.value <= a.leaseExpiresAt then None
        else Some(Some(a.(leaseExpiresAt := expires.value, lastActivity := renewedAt.value, logSeq := r.sequence)))
    case BeginCommit | BeginRevert =>
      if active.None? || active.value.chosen.Some? || !HasBinding(r) || BindingOf(r) != active.value.binding then None
      else Some(Some(active.value.(chosen := Some(r.kind), logSeq := r.sequence)))
    case ProbationPassed | Committed | Reverted => Some(active)
  }

  function Replay(records: seq<AuthorityRecord>): Option<Option<Authority>> {
    if records == [] then Some(None)
    else
      var before := Replay(records[..|records| - 1]);
      if before.None? then None else ReplayRecord(before.value, records[|records| - 1])
  }

  lemma ReplaySnoc(records: seq<AuthorityRecord>, r: AuthorityRecord)
    ensures Replay(records + [r]) ==
            if Replay(records).None? then None else ReplayRecord(Replay(records).value, r)
  {
    assert (records + [r])[..|records|] == records;
  }

  lemma {:induction false} ReplayPrefixAccepted(records: seq<AuthorityRecord>, k: nat)
    requires k <= |records|
    requires Replay(records).Some?
    ensures Replay(records[..k]).Some?
  {
    if k == |records| {
      assert records[..k] == records;
    } else {
      var init := records[..|records| - 1];
      ReplayPrefixAccepted(init, k);
      assert init[..k] == records[..k];
    }
  }

  /** `reconstruct_active_authority`: the loop over validated records. */
  method Reconstruct(records: seq<AuthorityRecord>) returns (result: Option<Option<Authority>>)
    ensures result == Replay(records)
  {
    var active: Option<Authority> := None;
    for i := 0 to |records|
      invariant Replay(records[..i]) == Some(active)
    {
      var r := records[i];
      ReplaySnoc(records[..i], r);
      assert records[..i] + [r] == records[..i + 1];
      match r.kind {
        case Armed =>
          if active.Some? || !HasBinding(r) || r.base.None? {
            RejectedForever(records, i + 1);
            return None;
          }
          var armedAt, deadline := TimeField(r.armedAt), TimeField(r.deadline);
          var expires := TimeField(r.leaseExpiresAt);
          if armedAt.None? || deadline.None? || expires.None? {
            RejectedForever(records, i + 1);
            return None;
          }
          active := Some(Authority(BindingOf(r), r.base.value, armedAt.value, deadline.value,
                                   expires.value, None, r.sequence, armedAt.value));
        case LeaseRenewed =>
          if active.None? || active.value.chosen.Some? || !HasBinding(r) || BindingOf(r) != active.value.binding {
            RejectedForever(records, i + 1);
            return None;
          }
          var state := active.value;
          var renewedAt, expires := TimeField(r.renewedAt), TimeField(r.leaseExpiresAt);
          if renewedAt.None? || expires.None?
             || renewedAt.value < state.lastActivity
             || renewedAt.value >= state.leaseExpiresAt
             || renewedAt.value >= state.deadline
             || expires != LeaseExpiryAt(renewedAt.value, state.deadline)
             || expires.value <= state.leaseExpiresAt {
            RejectedForever(records, i + 1);
            return None;
          }
          active := Some(state.(leaseExpiresAt := expires.value, lastActivity := renewedAt.value, logSeq := r.sequence));
        case BeginCommit | BeginRevert =>
          if active.None? || active.value.chosen.Some? || !HasBinding(r) || BindingOf(r) != active.value.binding {
            RejectedForever(records, i + 1);
            return None;
          }
          active := Some(active.value.(chosen := Some(r.kind), logSeq := r.sequence));
        case ProbationPassed | Committed | Reverted =>
      }
    }
    assert records[..|records|] == records;
    result := Some(active);
  }

  lemma RejectedForever(records: seq<AuthorityRecord>, k: nat)
    requires k <= |records|
    requires Replay(records[..k]).None?
    ensures Replay(records).None?
  {
    if Replay(records).Some? {
      ReplayPrefixAccepted(records, k);
    }
  }
}
