/** Per-agent daily admission counters: checked and counted in one step, rolled over only forward. */
module Quota {
  import opened Bytes
  import opened Wrappers

  datatype Window = Window(day: U64, used: U64)
  type Windows = map<string, Window>

  datatype Admission = Admission(windows: Windows, admitted: bool)

  function Current(windows: Windows, agentId: string, today: U64): Window {
    if agentId in windows && today <= windows[agentId].day then windows[agentId] else Window(today, 0)
  }

  function SaturatingAdd(n: U64): U64 {
    if n == U64_MAX then n else n + 1
  }

  /** What one call to `try_admit` does on a given day. */
  function Admit(windows: Windows, agentId: string, limit: Option<U64>, today: U64): Admission {
    var w := Current(windows, agentId, today);
    if limit.Some? && w.used >= limit.value then Admission(windows[agentId := w], false)
    else Admission(windows[agentId := w.(used := SaturatingAdd(w.used))], true)
  }

  class QuotaLedger {
    var windows: Windows

    constructor ()
      ensures windows == map[]
    {
      windows := map[];
    }

    /** A poisoned lock refuses and touches nothing. */
    method TryAdmit(agentId: string, limit: Option<U64>, today: U64, poisoned: bool) returns (admitted: bool)
      modifies this
      ensures poisoned ==> !admitted && windows == old(windows)
      ensures !poisoned ==> Admission(windows, admitted) == Admit(old(windows), agentId, limit, today)
    {
      if poisoned {
        return false;
      }
      if agentId !in windows {
        windows := windows[agentId := Window(today, 0)];
      }
      if today > windows[agentId].day {
        windows := windows[agentId := Window(today, 0)];
      }
      var window := windows[agentId];
      if limit.Some? && window.used >= limit.value {
        return false;
      }
      windows := windows[agentId := window.(used := SaturatingAdd(window.used))];
      return true;
    }
  }

  // ----- Traces -----

  /** Calls of any agents in any order, with whatever day the clock read. */
  datatype AdmitCall = AdmitCall(agentId: string, limit: Option<U64>, today: U64)

  function After(calls: seq<AdmitCall>): Windows {
    if calls == [] then map[]
    else
      var c := calls[|calls| - 1];
      Admit(After(calls[..|calls| - 1]), c.agentId, c.limit, c.today).windows
  }

  /** Call `i` of the trace was admitted, in the agent's window of that day. */
  predicate AdmittedIn(calls: seq<AdmitCall>, i: nat, agentId: string, day: U64)
    requires i < |calls|
  {
    var before, c := After(calls[..i]), calls[i];
    && c.agentId == agentId
    && Admit(before, agentId, c.limit, c.today).admitted
    && Current(before, agentId, c.today).day == day
  }

  function Count(calls: seq<AdmitCall>, agentId: string, day: U64): nat {
    if calls == [] then 0
    else
      var n := |calls| - 1;
      Count(calls[..n], agentId, day) + (if AdmittedIn(calls, n, agentId, day) then 1 else 0)
  }

  function Saturated(n: nat): U64 {
    if n <= U64_MAX then n else U64_MAX
  }

  /** The counter is the number of admissions in the current window, and later windows are unused. */
  lemma {:induction false} UsedIsCount(calls: seq<AdmitCall>, agentId: string)
    ensures agentId in After(calls) ==>
              && After(calls)[agentId].used == Saturated(Count(calls, agentId, After(calls)[agentId].day))
              && forall day: U64 :: day > After(calls)[agentId].day ==> Count(calls, agentId, day) == 0
    ensures agentId !in After(calls) ==> forall day: U64 :: Count(calls, agentId, day) == 0
  {
    if calls != [] {
      var n := |calls| - 1;
      UsedIsCount(calls[..n], agentId);
    }
  }

  // ----- Budgets, told from the calls alone -----

  /** The window a call falls into: the latest day the agent has called on, this call included. */
  function DayOf(calls: seq<AdmitCall>, agentId: string, today: U64): U64 {
    if calls == [] then today
    else
      var d, c := DayOf(calls[..|calls| - 1], agentId, today), calls[|calls| - 1];
      if c.agentId == agentId && d < c.today then c.today else d
  }

  /** A call is granted if it has no limit, or fewer calls than that were granted in its window. */
  predicate Granted(calls: seq<AdmitCall>, c: AdmitCall)
    decreases |calls|, 1
  {
    c.limit.None? || Spent(calls, c.agentId, DayOf(calls, c.agentId, c.today)) < c.limit.value
  }

  function Spent(calls: seq<AdmitCall>, agentId: string, day: U64): nat
    decreases |calls|, 0
  {
    if calls == [] then 0
    else
      var init, c := calls[..|calls| - 1], calls[|calls| - 1];
      Spent(init, agentId, day) +
      (if c.agentId == agentId && DayOf(init, agentId, c.today) == day && Granted(init, c) then 1 else 0)
  }

  lemma {:induction false} DayIsLatest(calls: seq<AdmitCall>, agentId: string, today: U64)
    ensures today <= DayOf(calls, agentId, today)
    ensures DayOf(calls, agentId, today) == if today <= DayOf(calls, agentId, 0) then DayOf(calls, agentId, 0) else today
  {
    if calls != [] {
      DayIsLatest(calls[..|calls| - 1], agentId, today);
    }
  }

  /** The ledger's window for an agent is its latest day, and the counter is what was granted in it. */
  ghost predicate Tells(calls: seq<AdmitCall>, agentId: string) {
    && var w, latest := After(calls), DayOf(calls, agentId, 0);
    && (agentId in w ==> w[agentId] == Window(latest, Saturated(Spent(calls, agentId, latest))))
    && (agentId !in w ==> latest == 0 && forall day: U64 :: Spent(calls, agentId, day) == 0)
    && forall day: U64 :: day > latest ==> Spent(calls, agentId, day) == 0
  }

  lemma WindowOf(calls: seq<AdmitCall>, c: AdmitCall)
    requires Tells(calls, c.agentId)
    ensures var day := DayOf(calls, c.agentId, c.today);
      Current(After(calls), c.agentId, c.today) == Window(day, Saturated(Spent(calls, c.agentId, day)))
  {
    hide Granted;
    DayIsLatest(calls, c.agentId, c.today);
  }

  lemma {:induction false} LedgerTells(calls: seq<AdmitCall>, agentId: string)
    ensures Tells(calls, agentId)
  {
    hide Tells;
    if calls == [] {
      NothingTold(agentId);
    } else {
      LedgerTells(calls[..|calls| - 1], agentId);
      OneMoreTold(calls, agentId);
    }
  }

  lemma NothingTold(agentId: string)
    ensures Tells([], agentId)
  {
  }

  lemma OneMoreTold(calls: seq<AdmitCall>, agentId: string)
    requires calls != [] && Tells(calls[..|calls| - 1], agentId)
    ensures Tells(calls, agentId)
  {
    hide Granted;
    var n := |calls| - 1;
    var init, c := calls[..n], calls[n];
    if c.agentId == agentId {
      WindowOf(init, c);
      DayIsLatest(init, agentId, c.today);
      GrantedIsAdmitted(init, c);
      var day := DayOf(init, agentId, c.today);
      assert DayOf(calls, agentId, 0) == day;
      assert Spent(calls, agentId, day) == Spent(init, agentId, day) + if Granted(init, c) then 1 else 0;
      assert forall d: U64 :: d > day ==> Spent(calls, agentId, d) == Spent(init, agentId, d);
    } else {
      assert forall d: U64 :: Spent(calls, agentId, d) == Spent(init, agentId, d);
    }
  }

  lemma GrantedIsAdmitted(calls: seq<AdmitCall>, c: AdmitCall)
    requires Tells(calls, c.agentId)
    ensures Admit(After(calls), c.agentId, c.limit, c.today).admitted <==> Granted(calls, c)
  {
    hide Tells;
    WindowOf(calls, c);
  }

  /**
   After any calls, the next one is admitted exactly when it has no limit or fewer calls than its
   limit were granted to its agent in its window, which is the later of today and the latest day the
   agent called on. The ledger is then what it was, but for that agent's window and count.
   */
  lemma AdmitsExactly(calls: seq<AdmitCall>, c: AdmitCall)
    ensures var a, day := Admit(After(calls), c.agentId, c.limit, c.today), DayOf(calls, c.agentId, c.today);
      && (a.admitted <==> c.limit.None? || Spent(calls, c.agentId, day) < c.limit.value)
      && c.agentId in a.windows
      && a.windows[c.agentId] == Window(day, Saturated(Spent(calls, c.agentId, day) + if a.admitted then 1 else 0))
      && forall other :: other != c.agentId ==> (other in a.windows <==> other in After(calls)) &&
                                                 (other in a.windows ==> a.windows[other] == After(calls)[other])
  {
    hide Tells, Spent, DayOf;
    LedgerTells(calls, c.agentId);
    WindowOf(calls, c);
    GrantedIsAdmitted(calls, c);
  }

  predicate LimitAtMost(limit: Option<U64>, most: U64) {
    limit.Some? && limit.value <= most
  }

  /**
   Whatever the interleaving of agents and the clock readings, backward ones included, the calls
   admitted to an agent within one window never exceed the largest limit an admitted one was held to.
   */
  lemma {:induction false} AdmissionsNeverExceedLimit(calls: seq<AdmitCall>, agentId: string, day: U64, most: U64)
    requires forall i :: 0 <= i < |calls| && AdmittedIn(calls, i, agentId, day) ==> LimitAtMost(calls[i].limit, most)
    ensures Count(calls, agentId, day) <= most
  {
    if calls != [] {
      var n := |calls| - 1;
      var init := calls[..n];
      forall i | 0 <= i < n && AdmittedIn(init, i, agentId, day) ensures LimitAtMost(init[i].limit, most) {
        assert init[..i] == calls[..i];
        assert AdmittedIn(calls, i, agentId, day);
      }
      AdmissionsNeverExceedLimit(init, agentId, day, most);
      if AdmittedIn(calls, n, agentId, day) {
        UsedIsCount(init, agentId);
        assert LimitAtMost(calls[n].limit, most);
      }
    }
  }

  /** An agent's window never moves back, so an earlier clock reading never opens a fresh budget. */
  lemma WindowsOnlyAdvance(windows: Windows, agentId: string, limit: Option<U64>, today: U64, other: string)
    requires other in windows
    ensures var w := Admit(windows, agentId, limit, today).windows;
      && other in w && windows[other].day <= w[other].day
      && (w[other].day == windows[other].day ==> windows[other].used <= w[other].used)
      && (other != agentId ==> w[other] == windows[other])
  {
  }
}
