/**
 What the record schema, the record order and the replay accept, stated over fields and whole logs
 rather than record by record.
 */
module AuthorityLaws {
  import opened Bytes
  import opened Wrappers
  import opened AuthorityLog
  import opened DecisionLog

  // ----- The schema -----

  datatype Field = BaseField | ArmedAtField | DeadlineField | LeaseExpiresAtField | RenewedAtField

  /** The optional fields a record carries, a half instant included. */
  predicate Carried(r: AuthorityRecord, f: Field) {
    match f
    case BaseField => r.base.Some?
    case ArmedAtField => r.armedAt != Stamp(None, None)
    case DeadlineField => r.deadline != Stamp(None, None)
    case LeaseExpiresAtField => r.leaseExpiresAt != Stamp(None, None)
    case RenewedAtField => r.renewedAt != Stamp(None, None)
  }

  function Demanded(kind: Kind): set<Field> {
    if kind == Armed then {BaseField, ArmedAtField, DeadlineField, LeaseExpiresAtField}
    else if kind == LeaseRenewed then {LeaseExpiresAtField, RenewedAtField}
    else {}
  }

  predicate NonEmpty(s: Option<string>) {
    s.Some? && s.value != ""
  }

  /** A whole instant: seconds and nanoseconds, and not beyond the last one. */
  predicate Instant(s: Stamp) {
    s.secs.Some? && s.nanos.Some? && s.nanos.value < 1_000_000_000 && s.secs.value <= 0x7fff_ffff_ffff_ffff
  }

  function Nanos(s: Stamp): nat
    requires Instant(s)
  {
    s.secs.value * 1_000_000_000 + s.nanos.value
  }

  function Earlier(a: int, b: int): int {
    if a < b then a else b
  }

  lemma InstantsExactly(s: Stamp)
    ensures TimeField(s).Some? <==> Instant(s)
    ensures Instant(s) ==> TimeField(s) == Some(Nanos(s))
  {
  }

  /**
   A record is valid exactly when it names host, transaction, lease and worker group, carries the
   fields of its kind and no other, and its instants are whole; an armed one is armed before its
   deadline and holds the lease of one hour or up to the deadline.
   */
  lemma SchemaExactly(r: AuthorityRecord)
    ensures SchemaValid(r) <==>
            && NonEmpty(r.hostId) && NonEmpty(r.txId) && NonEmpty(r.leaseId) && r.workerGroupTag.Some?
            && (forall f :: Carried(r, f) <==> f in Demanded(r.kind))
            && (r.kind == Armed ==>
                  && NonEmpty(r.base) && Instant(r.armedAt) && Instant(r.deadline) && Instant(r.leaseExpiresAt)
                  && Nanos(r.armedAt) < Nanos(r.deadline)
                  && Nanos(r.armedAt) + 3600 * 1_000_000_000 <= MAX_TIME
                  && Nanos(r.leaseExpiresAt) == Earlier(Nanos(r.armedAt) + 3600 * 1_000_000_000, Nanos(r.deadline)))
            && (r.kind == LeaseRenewed ==> Instant(r.leaseExpiresAt) && Instant(r.renewedAt))
  {
    InstantsExactly(r.armedAt);
    InstantsExactly(r.deadline);
    InstantsExactly(r.leaseExpiresAt);
    InstantsExactly(r.renewedAt);
    assert Carried(r, BaseField) <==> r.base.Some?;
    assert Carried(r, ArmedAtField) <==> Present(r.armedAt);
    assert Carried(r, DeadlineField) <==> Present(r.deadline);
    assert Carried(r, LeaseExpiresAtField) <==> Present(r.leaseExpiresAt);
    assert Carried(r, RenewedAtField) <==> Present(r.renewedAt);
  }

  // ----- The order of records -----

  /** From an empty start: valid records, numbered from 1, their epochs never falling. */
  lemma OrderExactly(records: seq<AuthorityRecord>)
    ensures Consecutive(records, 0, 0) <==>
            && (forall i :: 0 <= i < |records| ==> SchemaValid(records[i]) && records[i].sequence == i + 1)
            && forall i :: 0 < i < |records| ==> records[i - 1].epoch <= records[i].epoch
  {
    hide SchemaValid;
    if Consecutive(records, 0, 0) {
      forall i | 0 <= i < |records|
        ensures SchemaValid(records[i]) && records[i].sequence == i + 1 && (i > 0 ==> records[i - 1].epoch <= records[i].epoch)
      {
        assert InOrder(records[i], 0 + i, EpochBefore(records, i, 0));
      }
    }
  }

  // ----- The replay -----

  /** Records that bear on the authority; the others are passed over. */
  predicate Bears(r: AuthorityRecord) {
    r.kind == Armed || r.kind == LeaseRenewed || r.kind == BeginCommit || r.kind == BeginRevert
  }

  function Bearing(records: seq<AuthorityRecord>): (bearing: seq<AuthorityRecord>)
    ensures forall i :: 0 <= i < |bearing| ==> Bears(bearing[i]) && bearing[i] in records
  {
    if records == [] then []
    else
      var before, last := Bearing(records[..|records| - 1]), records[|records| - 1];
      if Bears(last) then before + [last] else before
  }

  predicate SameSession(a: AuthorityRecord, b: AuthorityRecord) {
    && a.hostId == b.hostId && a.txId == b.txId && a.epoch == b.epoch
    && a.leaseId == b.leaseId && a.workerGroupTag == b.workerGroupTag
  }

  /** When a bearing record other than a decision reports activity. */
  function Activity(r: AuthorityRecord): Stamp {
    if r.kind == Armed then r.armedAt else r.renewedAt
  }

  /** `next` renews the lease that `previous` granted: in time, by an hour or up to the deadline, and for longer. */
  predicate Renews(previous: AuthorityRecord, next: AuthorityRecord, deadline: Stamp) {
    && Instant(deadline) && Instant(Activity(previous)) && Instant(previous.leaseExpiresAt)
    && Instant(next.renewedAt) && Instant(next.leaseExpiresAt)
    && Nanos(Activity(previous)) <= Nanos(next.renewedAt) < Nanos(previous.leaseExpiresAt)
    && Nanos(next.renewedAt) < Nanos(deadline)
    && Nanos(next.renewedAt) + 3600 * 1_000_000_000 <= MAX_TIME
    && Nanos(next.leaseExpiresAt) == Earlier(Nanos(next.renewedAt) + 3600 * 1_000_000_000, Nanos(deadline))
    && Nanos(previous.leaseExpiresAt) < Nanos(next.leaseExpiresAt)
  }

  /** One armed record, then renewals, then at most one decision, all of one session. */
  ghost predicate Regular(b: seq<AuthorityRecord>) {
    b != [] ==>
      && b[0].kind == Armed
      && (forall i :: 0 < i < |b| ==> b[i].kind != Armed && SameSession(b[0], b[i]))
      && (forall i :: 0 <= i < |b| - 1 ==> !IsBegin(b[i].kind))
      && (forall i :: 0 < i < |b| && b[i].kind == LeaseRenewed ==> Renews(b[i - 1], b[i], b[0].deadline))
  }

  /** The authority is the armed record's, with the lease and activity of the last grant, and the decision if there is one. */
  ghost predicate Stands(b: seq<AuthorityRecord>, active: Option<Authority>) {
    if b == [] then active.None?
    else
      && active.Some?
      && var a, last := active.value, b[|b| - 1];
      && HasBinding(b[0]) && a.binding == BindingOf(b[0]) && b[0].base == Some(a.base)
      && TimeField(b[0].armedAt) == Some(a.armedAt) && TimeField(b[0].deadline) == Some(a.deadline)
      && a.logSeq == last.sequence
      && a.chosen == (if IsBegin(last.kind) then Some(last.kind) else None)
      && var granted := if IsBegin(last.kind) then |b| - 2 else |b| - 1;
      && granted >= 0
      && TimeField(Activity(b[granted])) == Some(a.lastActivity)
      && TimeField(b[granted].leaseExpiresAt) == Some(a.leaseExpiresAt)
  }

  /** What a regular list admits next. */
  predicate Continues(b: seq<AuthorityRecord>, r: AuthorityRecord) {
    if b == [] then r.kind == Armed
    else
      && r.kind != Armed && SameSession(b[0], r) && !IsBegin(b[|b| - 1].kind)
      && (r.kind == LeaseRenewed ==> Renews(b[|b| - 1], r, b[0].deadline))
  }

  lemma RegularSnoc(b: seq<AuthorityRecord>, r: AuthorityRecord)
    ensures Regular(b + [r]) <==> Regular(b) && Continues(b, r)
  {
    hide Renews, SameSession;
    var longer := b + [r];
    assert forall i :: 0 <= i < |b| ==> longer[i] == b[i];
    assert longer[|b|] == r;
    if Regular(longer) && b != [] {
      assert !IsBegin(longer[|b| - 1].kind);
      forall i | 0 < i < |b| && b[i].kind == LeaseRenewed ensures Renews(b[i - 1], b[i], b[0].deadline) {
        assert longer[i] == b[i] && longer[i - 1] == b[i - 1];
      }
      forall i | 0 <= i < |b| - 1 ensures !IsBegin(b[i].kind) {
        assert longer[i] == b[i];
      }
      forall i | 0 < i < |b| ensures b[i].kind != Armed && SameSession(b[0], b[i]) {
        assert longer[i] == b[i];
      }
    }
  }

  lemma ReplayOne(b: seq<AuthorityRecord>, active: Option<Authority>, r: AuthorityRecord)
    requires Stands(b, active) && SchemaValid(r) && Bears(r) && (b != [] ==> SchemaValid(b[0]) && b[0].kind == Armed)
    ensures var next := ReplayRecord(active, r);
      && (next.Some? <==> Continues(b, r))
      && (next.Some? ==> Stands(b + [r], next.value))
  {
    hide SchemaValid;
    SchemaFacts(r);
    InstantsExactly(r.leaseExpiresAt);
    InstantsExactly(r.renewedAt);
    if b != [] {
      SchemaFacts(b[0]);
      InstantsExactly(b[0].deadline);
      InstantsExactly(b[|b| - 1].leaseExpiresAt);
      InstantsExactly(Activity(b[|b| - 1]));
    }
  }

  lemma SchemaFacts(r: AuthorityRecord)
    requires SchemaValid(r)
    ensures HasBinding(r)
    ensures r.kind == Armed ==> r.base.Some? && TimeField(r.armedAt).Some? && TimeField(r.deadline).Some? && TimeField(r.leaseExpiresAt).Some?
    ensures r.kind == LeaseRenewed ==> TimeField(r.renewedAt).Some? && TimeField(r.leaseExpiresAt).Some?
  {
  }

  /** On valid records, the replay succeeds exactly when the bearing ones are regular, and it yields what they stand for. */
  lemma {:induction false} ReplaysExactly(records: seq<AuthorityRecord>)
    requires forall i :: 0 <= i < |records| ==> SchemaValid(records[i])
    ensures Replay(records).Some? <==> Regular(Bearing(records))
    ensures Replay(records).Some? ==> Stands(Bearing(records), Replay(records).value)
  {
    hide SchemaValid, Regular, Stands, ReplayRecord;
    if records == [] {
      NothingStands();
    } else {
      var init, last := records[..|records| - 1], records[|records| - 1];
      ReplaysExactly(init);
      if Bears(last) {
        RegularSnoc(Bearing(init), last);
        if Replay(init).Some? {
          RegularHead(Bearing(init));
          ReplayOne(Bearing(init), Replay(init).value, last);
        }
      } else {
        PassedOver(last);
      }
    }
  }

  lemma NothingStands()
    ensures Regular([]) && Stands([], None)
  {
  }

  lemma RegularHead(b: seq<AuthorityRecord>)
    requires Regular(b)
    ensures b != [] ==> b[0].kind == Armed
  {
  }

  lemma PassedOver(r: AuthorityRecord)
    requires !Bears(r)
    ensures forall active :: ReplayRecord(active, r) == Some(active)
  {
  }
}
