/** The policy ladder: five stages in order, of which only the last touches the quota ledger. */
module Policy {
  import opened Bytes
  import opened Wrappers
  import opened Quota
  import opened Wal

  datatype PolicyKind = Deny | RequiresApproval | PreAuthorized
  datatype OutOfBounds = OutOfBoundsApproval | OutOfBoundsDeny

  datatype OperationPolicy = OperationPolicy(kind: PolicyKind, outOfBounds: Option<OutOfBounds>)

  datatype Footprint = Footprint(resource: string, class_: EffectClass)

  datatype CallDescriptor = CallDescriptor(
    op: string, effectSet: seq<EffectClass>, footprint: seq<Footprint>, globallyForbidden: bool, withinBounds: Option<bool>)

  /** The host's safety for a resource meets the manifest's minimum: taken as given. */
  type SafetyCheck = string -> bool

  datatype Manifest = Manifest(
    operations: map<string, OperationPolicy>, maxUnapprovedClass: Option<EffectClass>, callsPerDay: Option<U64>)

  datatype ErrorCode = Denied | ApprovalRequired | QuotaExhausted
  datatype Stage = ForbiddenClass | SafetyMinimum | OperationPolicyStage | ClassCeiling | QuotaStage
  datatype Decision = Allow | Refuse(code: ErrorCode, stage: Stage)

  function Rank(c: EffectClass): nat {
    match c
    case R => 0
    case D => 1
    case M => 2
    case E => 3
    case F => 255
  }

  /** The highest class of the set, leaving F aside. */
  function HighestClass(effects: seq<EffectClass>): Option<EffectClass> {
    if effects == [] then None
    else
      var before, c := HighestClass(effects[..|effects| - 1]), effects[|effects| - 1];
      if c.F? then before
      else if before.None? || Rank(before.value) <= Rank(c) then Some(c)
      else before
  }

  predicate TouchOk(t: Footprint, meets: SafetyCheck) {
    t.class_.D? || t.class_.M? ==> meets(t.resource)
  }

  method FailingSafety(call: CallDescriptor, meets: SafetyCheck) returns (failing: bool)
    ensures failing <==> exists i :: 0 <= i < |call.footprint| && !TouchOk(call.footprint[i], meets)
  {
    for i := 0 to |call.footprint|
      invariant forall j :: 0 <= j < i ==> TouchOk(call.footprint[j], meets)
    {
      if !TouchOk(call.footprint[i], meets) {
        return true;
      }
    }
    return false;
  }

  function StageThree(policy: OperationPolicy, call: CallDescriptor): Decision {
    match policy.kind
    case Deny => Refuse(Denied, OperationPolicyStage)
    case RequiresApproval => Refuse(ApprovalRequired, OperationPolicyStage)
    case PreAuthorized =>
      if call.withinBounds == Some(true) then Allow
      else if policy.outOfBounds.GetOr(OutOfBoundsApproval).OutOfBoundsDeny? then Refuse(Denied, OperationPolicyStage)
      else Refuse(ApprovalRequired, OperationPolicyStage)
  }

  function StageFour(call: CallDescriptor, m: Manifest): Decision {
    var highest := HighestClass(call.effectSet);
    if highest.None? then Refuse(Denied, ClassCeiling)
    else if Rank(highest.value) <= Rank(m.maxUnapprovedClass.GetOr(R)) then Allow
    else Refuse(ApprovalRequired, ClassCeiling)
  }

  predicate ContainsForbidden(call: CallDescriptor) {
    call.globallyForbidden || F in call.effectSet
  }

  // ----- What the first four stages demand, stated apart from their order -----

  ghost predicate Permitted(call: CallDescriptor, m: Manifest, meets: SafetyCheck) {
    && !call.globallyForbidden && F !in call.effectSet
    && SafeEnough(call, meets)
    && (if call.op in m.operations then m.operations[call.op].kind.PreAuthorized? && call.withinBounds == Some(true)
        else call.effectSet != [] &&
             forall i :: 0 <= i < |call.effectSet| ==> Rank(call.effectSet[i]) <= Rank(m.maxUnapprovedClass.GetOr(R)))
  }

  lemma {:induction false} HighestIsMaximum(effects: seq<EffectClass>, ceiling: nat)
    requires F !in effects
    ensures HighestClass(effects).None? <==> effects == []
    ensures effects != [] ==>
              (Rank(HighestClass(effects).value) <= ceiling <==> forall i :: 0 <= i < |effects| ==> Rank(effects[i]) <= ceiling)
  {
    if effects != [] {
      HighestIsMaximum(effects[..|effects| - 1], ceiling);
    }
  }

  lemma StageFourExactly(call: CallDescriptor, m: Manifest)
    requires F !in call.effectSet
    ensures StageFour(call, m).Allow? <==>
              call.effectSet != [] &&
              forall i :: 0 <= i < |call.effectSet| ==> Rank(call.effectSet[i]) <= Rank(m.maxUnapprovedClass.GetOr(R))
  {
    HighestIsMaximum(call.effectSet, Rank(m.maxUnapprovedClass.GetOr(R)));
  }

  lemma StageFourCode(call: CallDescriptor, m: Manifest)
    requires F !in call.effectSet
    ensures StageFour(call, m).Refuse? ==> StageFour(call, m) == Refuse(if call.effectSet == [] then Denied else ApprovalRequired, ClassCeiling)
  {
    HighestIsMaximum(call.effectSet, 0);
  }

  ghost predicate SafeEnough(call: CallDescriptor, meets: SafetyCheck) {
    forall i :: 0 <= i < |call.footprint| ==> TouchOk(call.footprint[i], meets)
  }

  /** The classes in their order; F stands above all. */
  lemma RanksInOrder()
    ensures Rank(R) < Rank(D) < Rank(M) < Rank(E) < Rank(F)
  {
  }

  predicate AboveCeiling(c: EffectClass, m: Manifest) {
    match m.maxUnapprovedClass
    case Some(D) => c.M? || c.E?
    case Some(M) => c.E?
    case Some(E) => false
    case Some(F) => false
    case _ => !c.R?
  }

  lemma CeilingExactly(c: EffectClass, m: Manifest)
    requires !c.F?
    ensures AboveCeiling(c, m) <==> Rank(c) > Rank(m.maxUnapprovedClass.GetOr(R))
  {
  }

  /** Some D or M touch is of a resource that does not meet its minimum. */
  ghost predicate BelowMinimum(call: CallDescriptor, meets: SafetyCheck) {
    exists i :: 0 <= i < |call.footprint| && (call.footprint[i].class_ == D || call.footprint[i].class_ == M)
                && !meets(call.footprint[i].resource)
  }

  /** A refusal names the first stage that refuses, with that stage's code. */
  ghost predicate DecidedAt(d: Decision, call: CallDescriptor, m: Manifest, meets: SafetyCheck)
    requires d.Refuse?
  {
    if call.globallyForbidden || F in call.effectSet then d == Refuse(Denied, ForbiddenClass)
    else if BelowMinimum(call, meets) then d == Refuse(Denied, SafetyMinimum)
    else if call.op in m.operations && !(m.operations[call.op].kind.PreAuthorized? && call.withinBounds == Some(true)) then
      var policy := m.operations[call.op];
      d == Refuse(if policy.kind == Deny || (policy.kind == PreAuthorized && policy.outOfBounds == Some(OutOfBoundsDeny)) then Denied
                  else ApprovalRequired, OperationPolicyStage)
    else if call.op !in m.operations && call.effectSet == [] then d == Refuse(Denied, ClassCeiling)
    else if call.op !in m.operations && exists i :: 0 <= i < |call.effectSet| && AboveCeiling(call.effectSet[i], m) then
      d == Refuse(ApprovalRequired, ClassCeiling)
    else d == Refuse(QuotaExhausted, QuotaStage)
  }

  /** Permitted calls are those that no stage before the last refuses. */
  lemma PermittedExactly(call: CallDescriptor, m: Manifest, meets: SafetyCheck)
    ensures Permitted(call, m, meets) <==>
            && !call.globallyForbidden && F !in call.effectSet && !BelowMinimum(call, meets)
            && (call.op in m.operations ==> m.operations[call.op].kind.PreAuthorized? && call.withinBounds == Some(true))
            && (call.op !in m.operations ==>
                  call.effectSet != [] && !exists i :: 0 <= i < |call.effectSet| && AboveCeiling(call.effectSet[i], m))
  {
    hide Rank, AboveCeiling;
    MinimumExactly(call, meets);
    if F !in call.effectSet {
      forall i | 0 <= i < |call.effectSet|
        ensures AboveCeiling(call.effectSet[i], m) <==> Rank(call.effectSet[i]) > Rank(m.maxUnapprovedClass.GetOr(R))
      {
        CeilingExactly(call.effectSet[i], m);
      }
    }
  }

  lemma MinimumExactly(call: CallDescriptor, meets: SafetyCheck)
    ensures SafeEnough(call, meets) <==> !BelowMinimum(call, meets)
  {
    if !SafeEnough(call, meets) {
      var i :| 0 <= i < |call.footprint| && !TouchOk(call.footprint[i], meets);
      assert (call.footprint[i].class_ == D || call.footprint[i].class_ == M) && !meets(call.footprint[i].resource);
    }
  }

  /**
   Evaluates the ladder. A call passes exactly when it is permitted and the ledger admits it; one
   refused at stages one to four leaves the ledger untouched.
   */
  method Evaluate(
    call: CallDescriptor, m: Manifest, meets: SafetyCheck, ledger: QuotaLedger, agentId: string, today: U64, poisoned: bool)
    returns (d: Decision)
    modifies ledger
    ensures !Permitted(call, m, meets) ==> ledger.windows == old(ledger.windows) && d.Refuse? && !d.stage.QuotaStage?
    ensures Permitted(call, m, meets) && poisoned ==>
              d == Refuse(QuotaExhausted, QuotaStage) && ledger.windows == old(ledger.windows)
    ensures Permitted(call, m, meets) && !poisoned ==>
              && var a := Admit(old(ledger.windows), agentId, m.callsPerDay, today);
              ledger.windows == a.windows && d == if a.admitted then Allow else Refuse(QuotaExhausted, QuotaStage)
    ensures d.Refuse? ==> DecidedAt(d, call, m, meets)
  {
    hide HighestClass, AboveCeiling, Rank;
    PermittedExactly(call, m, meets);
    MinimumExactly(call, meets);
    if ContainsForbidden(call) {
      return Refuse(Denied, ForbiddenClass);
    }
    var failing := FailingSafety(call, meets);
    if failing {
      return Refuse(Denied, SafetyMinimum);
    }
    if call.op in m.operations {
      d := StageThree(m.operations[call.op], call);
    } else {
      d := StageFour(call, m);
      StageFourExactly(call, m);
      StageFourCode(call, m);
    }
    if d.Refuse? {
      return;
    }
    var admitted := ledger.TryAdmit(agentId, m.callsPerDay, today, poisoned);
    return if admitted then Allow else Refuse(QuotaExhausted, QuotaStage);
  }
}
