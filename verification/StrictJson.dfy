/** Strict admission of parsed documents: no duplicate keys, no non-interoperable number, at any depth. */
module StrictJson {
  import opened Wrappers
  import opened Jcs

  /** A document as its text has it: members in order, possibly repeated; numbers as they are spelled. */
  datatype Document =
    | DNull
    | DBool(b: bool)
    | DInteger(n: int)
    | DFraction(literal: string)
    | DString(s: string)
    | DArray(items: seq<Document>)
    | DObject(members: seq<Member>)

  datatype Member = Member(key: string, value: Document)

  function Admit(d: Document): Option<Value>
    decreases d, 1, 0
  {
    match d
    case DNull => Some(Null)
    case DBool(b) => Some(Bool(b))
    case DInteger(n) => if InteroperableInt(n) then Some(Number(n)) else None
    case DFraction(_) => None
    case DString(s) => Some(String(s))
    case DArray(items) =>
      var values := AdmitItems(d, |items|);
      if values.None? then None else Some(Array(values.value))
    case DObject(members) =>
      var values := AdmitMembers(d, |members|);
      if values.None? then None else Some(Object(values.value))
  }

  function AdmitItems(d: Document, n: nat): Option<seq<Value>>
    requires d.DArray? && n <= |d.items|
    decreases d, 0, n
  {
    if n == 0 then Some([])
    else
      var before := AdmitItems(d, n - 1);
      if before.None? then None
      else
        var v := Admit(d.items[n - 1]);
        if v.None? then None else Some(before.value + [v.value])
  }

  /** Members in order; a key that is already there refuses the whole document. */
  function AdmitMembers(d: Document, n: nat): Option<map<string, Value>>
    requires d.DObject? && n <= |d.members|
    decreases d, 0, n
  {
    if n == 0 then Some(map[])
    else
      var before := AdmitMembers(d, n - 1);
      if before.None? then None
      else
        var m := d.members[n - 1];
        var v := Admit(m.value);
        if v.None? || m.key in before.value then None else Some(before.value[m.key := v.value])
  }

  method AdmitObject(d: Document) returns (value: Option<Value>)
    requires d.DObject?
    ensures value == Admit(d)
  {
    var out: map<string, Value> := map[];
    for i := 0 to |d.members|
      invariant AdmitMembers(d, i) == Some(out)
    {
      var v := Admit(d.members[i].value);
      if v.None? || d.members[i].key in out {
        RefusedStaysRefused(d, i + 1, |d.members|);
        return None;
      }
      out := out[d.members[i].key := v.value];
    }
    return Some(Object(out));
  }

  lemma {:induction false} RefusedStaysRefused(d: Document, i: nat, n: nat)
    requires d.DObject? && i <= n <= |d.members| && AdmitMembers(d, i).None?
    ensures AdmitMembers(d, n).None?
    decreases n
  {
    if i < n {
      RefusedStaysRefused(d, i, n - 1);
    }
  }

  // ----- What admission means -----

  predicate DistinctKeys(members: seq<Member>) {
    forall i, j :: 0 <= i < j < |members| ==> members[i].key != members[j].key
  }

  predicate AllAdmitted(members: seq<Member>) {
    forall i :: 0 <= i < |members| ==> Admit(members[i].value).Some?
  }

  /** The map holds, for each member, its admitted value, and nothing else. */
  predicate Holds(m: map<string, Value>, members: seq<Member>) {
    && (forall i :: 0 <= i < |members| ==> members[i].key in m && Admit(members[i].value) == Some(m[members[i].key]))
    && forall k :: k in m ==> exists i :: 0 <= i < |members| && members[i].key == k
  }

  /** An object is admitted exactly when its values are and no key repeats; then it holds each member. */
  lemma {:induction false} AdmitsExactly(d: Document, n: nat)
    requires d.DObject? && n <= |d.members|
    ensures AdmitMembers(d, n).Some? <==> DistinctKeys(d.members[..n]) && AllAdmitted(d.members[..n])
    ensures AdmitMembers(d, n).Some? ==> Holds(AdmitMembers(d, n).value, d.members[..n])
  {
    hide Admit;
    if n > 0 {
      AdmitsExactly(d, n - 1);
      var before, now, last := d.members[..n - 1], d.members[..n], d.members[n - 1];
      assert now == before + [last];
      if DistinctKeys(now) && AllAdmitted(now) {
        assert Admit(now[n - 1].value).Some?;
        assert DistinctKeys(before) && AllAdmitted(before);
      }
      if AdmitMembers(d, n - 1).Some? && Admit(last.value).Some? {
        var m := AdmitMembers(d, n - 1).value;
        if last.key in m {
          var i :| 0 <= i < |before| && before[i].key == last.key;
          assert now[i].key == now[n - 1].key;
        } else {
          HoldsOneMore(m, before, last);
        }
      }
    }
  }

  lemma HoldsOneMore(m: map<string, Value>, members: seq<Member>, last: Member)
    requires Holds(m, members) && DistinctKeys(members) && last.key !in m && Admit(last.value).Some?
    ensures Holds(m[last.key := Admit(last.value).value], members + [last])
    ensures DistinctKeys(members + [last])
  {
    hide Admit;
    var longer, m' := members + [last], m[last.key := Admit(last.value).value];
    forall k | k in m' ensures exists i :: 0 <= i < |longer| && longer[i].key == k {
      if k == last.key {
        assert longer[|members|].key == k;
      } else {
        var i :| 0 <= i < |members| && members[i].key == k;
        assert longer[i].key == k;
      }
    }
  }

  // ----- Member order -----

  /** `to` is a rearrangement of `n` places, undone by `back`. */
  ghost predicate Rearranges(to: seq<nat>, back: seq<nat>, n: nat) {
    && |to| == n && |back| == n
    && (forall i :: 0 <= i < n ==> to[i] < n && back[to[i]] == i)
    && forall i :: 0 <= i < n ==> back[i] < n && to[back[i]] == i
  }

  /** Documents that differ only in the order of object members, at any depth. */
  ghost predicate Reordered(a: Document, b: Document)
    decreases a, 1
  {
    match a
    case DArray(items) =>
      b.DArray? && |b.items| == |items| && forall i :: 0 <= i < |items| ==> Reordered(items[i], b.items[i])
    case DObject(members) =>
      b.DObject? && exists to, back :: Rearranges(to, back, |members|) && |b.members| == |members| && Matched(a, b, to)
    case _ => a == b
  }

  /** Member `i` of one object is member `to[i]` of the other, up to reordering inside its value. */
  ghost predicate Matched(a: Document, b: Document, to: seq<nat>)
    requires a.DObject? && b.DObject? && |to| == |a.members| == |b.members|
    decreases a, 0
  {
    forall i :: 0 <= i < |to| ==> to[i] < |b.members| && MemberMatched(a, i, b.members[to[i]])
  }

  ghost predicate MemberMatched(a: Document, i: nat, m: Member)
    requires a.DObject? && i < |a.members|
    decreases a, 0, 0
  {
    a.members[i].key == m.key && Reordered(a.members[i].value, m.value)
  }

  lemma AdmitsWhole(members: seq<Member>)
    ensures Admit(DObject(members)).Some? <==> DistinctKeys(members) && AllAdmitted(members)
    ensures Admit(DObject(members)).Some? ==>
              Admit(DObject(members)).value.Object? && Holds(Admit(DObject(members)).value.members, members)
  {
    AdmitsExactly(DObject(members), |members|);
    assert members[..|members|] == members;
  }

  /** Each member has its counterpart, with the same key and admitted alike. */
  ghost predicate Counterparts(a: seq<Member>, b: seq<Member>, to: seq<nat>) {
    |to| == |a| == |b| &&
    forall i :: 0 <= i < |a| ==> to[i] < |b| && a[i].key == b[to[i]].key && Admit(a[i].value) == Admit(b[to[i]].value)
  }

  lemma CounterpartsBack(a: seq<Member>, b: seq<Member>, to: seq<nat>, back: seq<nat>)
    requires Counterparts(a, b, to) && Rearranges(to, back, |a|)
    ensures Counterparts(b, a, back)
  {
    hide Admit;
    forall j | 0 <= j < |b|
      ensures back[j] < |a| && b[j].key == a[back[j]].key && Admit(b[j].value) == Admit(a[back[j]].value)
    {
      assert to[back[j]] == j;
    }
  }

  lemma CounterpartsFacts(a: seq<Member>, b: seq<Member>, to: seq<nat>, back: seq<nat>)
    requires Counterparts(a, b, to) && Rearranges(to, back, |a|)
    ensures DistinctKeys(b) ==> DistinctKeys(a)
    ensures AllAdmitted(b) ==> AllAdmitted(a)
  {
    hide Admit;
    forall i, j | 0 <= i < j < |a| && DistinctKeys(b) ensures a[i].key != a[j].key {
      assert back[to[i]] == i && back[to[j]] == j;
    }
  }

  lemma HeldByCounterpart(
    m: map<string, Value>, n: map<string, Value>, a: seq<Member>, b: seq<Member>, to: seq<nat>, k: string)
    requires Holds(m, a) && Holds(n, b) && Counterparts(a, b, to) && k in m
    ensures k in n && m[k] == n[k]
  {
    hide Admit;
    var i :| 0 <= i < |a| && a[i].key == k;
    var j := to[i];
    assert Admit(a[i].value) == Admit(b[j].value) && b[j].key == k;
    assert Admit(b[j].value) == Some(n[b[j].key]);
  }

  lemma CounterpartsHoldAlike(
    m: map<string, Value>, n: map<string, Value>, a: seq<Member>, b: seq<Member>, to: seq<nat>, back: seq<nat>)
    requires Holds(m, a) && Holds(n, b) && Counterparts(a, b, to) && Counterparts(b, a, back)
    ensures m == n
  {
    hide Admit, Holds, Counterparts;
    forall k | k in m ensures k in n && m[k] == n[k] {
      HeldByCounterpart(m, n, a, b, to, k);
    }
    forall k | k in n ensures k in m {
      HeldByCounterpart(n, m, b, a, back, k);
    }
  }

  lemma RearrangedAlike(a: seq<Member>, b: seq<Member>, to: seq<nat>, back: seq<nat>)
    requires Counterparts(a, b, to) && Rearranges(to, back, |a|)
    ensures Admit(DObject(a)) == Admit(DObject(b))
  {
    hide Admit;
    CounterpartsBack(a, b, to, back);
    assert Rearranges(back, to, |b|);
    CounterpartsFacts(a, b, to, back);
    CounterpartsFacts(b, a, back, to);
    AdmitsWhole(a);
    AdmitsWhole(b);
    if DistinctKeys(a) && AllAdmitted(a) {
      CounterpartsHoldAlike(Admit(DObject(a)).value.members, Admit(DObject(b)).value.members, a, b, to, back);
    }
  }

  /**
   Member order is irrelevant at any depth: documents that differ only in it are refused together
   or admitted as the same value, so their canonical bytes are equal.
   */
  lemma {:induction false} MemberOrderIsIrrelevant(a: Document, b: Document)
    requires Reordered(a, b)
    ensures Admit(a) == Admit(b)
    ensures Admit(a).Some? ==> CanonicalBytes(Admit(a).value) == CanonicalBytes(Admit(b).value)
    decreases a, 1, 0
  {
    match a {
      case DArray(items) =>
        hide CanonicalBytes;
        ItemsAlike(a, b, |items|);
      case DObject(members) =>
        hide CanonicalBytes, Admit;
        var to, back :| Rearranges(to, back, |members|) && |b.members| == |members| && Matched(a, b, to);
        forall i | 0 <= i < |members|
          ensures to[i] < |members| && members[i].key == b.members[to[i]].key
          ensures Admit(members[i].value) == Admit(b.members[to[i]].value)
        {
          assert MemberMatched(a, i, b.members[to[i]]);
          MemberOrderIsIrrelevant(members[i].value, b.members[to[i]].value);
        }
        RearrangedAlike(members, b.members, to, back);
        assert a == DObject(members) && b == DObject(b.members);
      case _ =>
    }
  }

  lemma {:induction false} ItemsAlike(a: Document, b: Document, n: nat)
    requires a.DArray? && b.DArray? && Reordered(a, b) && n <= |a.items|
    ensures AdmitItems(a, n) == AdmitItems(b, n)
    decreases a, 0, n
  {
    hide Admit;
    if n > 0 {
      ItemsAlike(a, b, n - 1);
      MemberOrderIsIrrelevant(a.items[n - 1], b.items[n - 1]);
    }
  }

  /** Exchanging two members is such a reordering. */
  lemma SwapIsReordering(members: seq<Member>, i: nat, j: nat)
    requires i < j < |members|
    ensures Reordered(DObject(members), DObject(members[i := members[j]][j := members[i]]))
  {
    hide Reordered;
    var to := seq(|members|, k requires 0 <= k < |members| => if k == i then j else if k == j then i else k);
    var a, b := DObject(members), DObject(members[i := members[j]][j := members[i]]);
    assert Rearranges(to, to, |members|);
    forall k | 0 <= k < |members| ensures MemberMatched(a, k, b.members[to[k]]) {
      SelfReordered(members[k].value);
    }
    assert Matched(a, b, to);
    ReorderedObject(a, b, to, to);
  }

  lemma ReorderedObject(a: Document, b: Document, to: seq<nat>, back: seq<nat>)
    requires a.DObject? && b.DObject? && Rearranges(to, back, |a.members|) && |b.members| == |a.members| && Matched(a, b, to)
    ensures Reordered(a, b)
  {
  }

  lemma {:induction false} SelfReordered(d: Document)
    ensures Reordered(d, d)
    decreases d
  {
    hide Reordered;
    match d {
      case DArray(items) =>
        forall i | 0 <= i < |items| ensures Reordered(items[i], items[i]) {
          SelfReordered(items[i]);
        }
        ReorderedArray(d, d);
      case DObject(members) =>
        var same := seq(|members|, k => k);
        forall k | 0 <= k < |members| ensures MemberMatched(d, k, members[same[k]]) {
          SelfReordered(members[k].value);
        }
        ReorderedObject(d, d, same, same);
      case _ => ReorderedLeaf(d);
    }
  }

  lemma ReorderedArray(a: Document, b: Document)
    requires a.DArray? && b.DArray? && |a.items| == |b.items|
    requires forall i :: 0 <= i < |a.items| ==> Reordered(a.items[i], b.items[i])
    ensures Reordered(a, b)
  {
  }

  lemma ReorderedLeaf(d: Document)
    requires !d.DArray? && !d.DObject?
    ensures Reordered(d, d)
  {
  }

  /** Every admitted document can be canonicalized. */
  lemma {:induction false} AdmittedIsInteroperable(d: Document)
    requires Admit(d).Some?
    ensures Interoperable(Admit(d).value)
    decreases d, 1, 0
  {
    match d {
      case DArray(items) => ItemsInteroperable(d, |items|);
      case DObject(members) => MembersInteroperable(d, |members|);
      case _ =>
    }
  }

  lemma {:induction false} ItemsInteroperable(d: Document, n: nat)
    requires d.DArray? && n <= |d.items| && AdmitItems(d, n).Some?
    ensures forall i :: 0 <= i < |AdmitItems(d, n).value| ==> Interoperable(AdmitItems(d, n).value[i])
    decreases d, 0, n
  {
    if n > 0 {
      ItemsInteroperable(d, n - 1);
      AdmittedIsInteroperable(d.items[n - 1]);
    }
  }

  lemma {:induction false} MembersInteroperable(d: Document, n: nat)
    requires d.DObject? && n <= |d.members| && AdmitMembers(d, n).Some?
    ensures forall k :: k in AdmitMembers(d, n).value ==> Interoperable(AdmitMembers(d, n).value[k])
    decreases d, 0, n
  {
    if n > 0 {
      MembersInteroperable(d, n - 1);
      AdmittedIsInteroperable(d.members[n - 1].value);
    }
  }

  /** Two admitted documents have the same canonical bytes exactly when they have the same value. */
  lemma CanonicalBytesIdentifyValue(d: Document, e: Document)
    requires Admit(d).Some? && Admit(e).Some?
    ensures CanonicalBytes(Admit(d).value) == CanonicalBytes(Admit(e).value) <==> Admit(d) == Admit(e)
  {
    hide Admit, CanonicalBytes;
    if CanonicalBytes(Admit(d).value) == CanonicalBytes(Admit(e).value) {
      CanonicalBytesDetermine(Admit(d).value, Admit(e).value);
    }
  }

  // ----- Leaves and arrays -----

  /** Integers up to 2^53 - 1 in magnitude are admitted as they are, other numbers not at all. */
  lemma NumbersExactly(n: int, literal: string)
    ensures Admit(DInteger(n)) == if -9_007_199_254_740_991 <= n <= 9_007_199_254_740_991 then Some(Number(n)) else None
    ensures Admit(DFraction(literal)) == None
  {
  }

  /** An array is admitted exactly when its items are, as the array of their values. */
  lemma {:induction false} ItemsExactly(d: Document, n: nat)
    requires d.DArray? && n <= |d.items|
    ensures AdmitItems(d, n).Some? <==> forall i :: 0 <= i < n ==> Admit(d.items[i]).Some?
    ensures AdmitItems(d, n).Some? ==>
              && |AdmitItems(d, n).value| == n
              && forall i :: 0 <= i < n ==> Admit(d.items[i]) == Some(AdmitItems(d, n).value[i])
  {
    hide Admit;
    if n > 0 {
      ItemsExactly(d, n - 1);
    }
  }

  lemma AdmitsArrays(items: seq<Document>)
    ensures var r := Admit(DArray(items));
      && (r.Some? <==> forall i :: 0 <= i < |items| ==> Admit(items[i]).Some?)
      && (r.Some? ==> && r.value.Array? && |r.value.items| == |items|
                      && forall i :: 0 <= i < |items| ==> Admit(items[i]) == Some(r.value.items[i]))
  {
    ItemsExactly(DArray(items), |items|);
  }
}
