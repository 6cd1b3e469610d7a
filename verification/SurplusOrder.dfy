/** Which of an app's local replicas are drained first
    (internal/usecase/fleet_orchestrator.go:1500-1524). */
module SurplusOrder {
  import opened Text
  import opened FleetTypes

  datatype Replica = Replica(id: Id, app: Id, host: Option<Id>, state: ReplicaState, createdAt: int)

  function DrainRank(s: ReplicaState): nat {
    if s == Scheduled || s == Booting then 0 else 1
  }

  /** The comparison of the stable sort: pending before resident, then newest first. */
  predicate DrainsBefore(a: Replica, b: Replica) {
    if DrainRank(a.state) != DrainRank(b.state) then DrainRank(a.state) < DrainRank(b.state)
    else a.createdAt > b.createdAt
  }

  function InsertStable(sorted: seq<Replica>, x: Replica): seq<Replica> {
    if sorted == [] then [x]
    else if DrainsBefore(x, sorted[0]) then [x] + sorted
    else [sorted[0]] + InsertStable(sorted[1..], x)
  }

  function Order(s: seq<Replica>): seq<Replica> {
    if s == [] then [] else InsertStable(Order(s[..|s| - 1]), s[|s| - 1])
  }

  ghost predicate Ordered(s: seq<Replica>) {
    forall i, j :: 0 <= i < j < |s| ==> !DrainsBefore(s[j], s[i])
  }

  /** Not yet serving. */
  ghost predicate Pending(r: Replica) { r.state == Scheduled || r.state == Booting }

  /** The first goes no later than the second: a pending row before one that serves, and of two alike
      the one created later. */
  ghost predicate GoesFirst(a: Replica, b: Replica) {
    && (Pending(b) ==> Pending(a))
    && ((Pending(a) <==> Pending(b)) ==> b.createdAt <= a.createdAt)
  }

  lemma NotBefore(a: Replica, b: Replica)
    ensures !DrainsBefore(b, a) <==> GoesFirst(a, b)
  {}

  lemma {:induction false} InsertMembers(sorted: seq<Replica>, x: Replica)
    ensures multiset(InsertStable(sorted, x)) == multiset(sorted) + multiset{x}
  {
    hide DrainsBefore;
    if sorted != [] {
      assert sorted == [sorted[0]] + sorted[1..];
      if !DrainsBefore(x, sorted[0]) {
        InsertMembers(sorted[1..], x);
      }
    }
  }

  lemma {:induction false} InsertOrdered(sorted: seq<Replica>, x: Replica)
    requires Ordered(sorted)
    ensures Ordered(InsertStable(sorted, x))
  {
    if sorted != [] {
      if DrainsBefore(x, sorted[0]) {
        forall j | 0 <= j < |sorted| ensures !DrainsBefore(sorted[j], x) {
          assert j > 0 ==> !DrainsBefore(sorted[j], sorted[0]);
        }
      } else {
        hide DrainsBefore;
        InsertOrdered(sorted[1..], x);
        InsertMembers(sorted[1..], x);
        var rest := InsertStable(sorted[1..], x);
        forall j | 0 <= j < |rest| ensures !DrainsBefore(rest[j], sorted[0]) {
          assert rest[j] in multiset(rest);
        }
      }
    }
  }

  /** The order is a permutation of the input with the pending rows first, and within the pending and
      within the serving rows the newest first. */
  lemma {:induction false} OrderSorts(s: seq<Replica>)
    ensures Ordered(Order(s)) && multiset(Order(s)) == multiset(s) && |Order(s)| == |s|
    ensures forall y :: y in Order(s) <==> y in s
    ensures forall i, j :: 0 <= i < j < |s| ==> GoesFirst(Order(s)[i], Order(s)[j])
  {
    hide DrainsBefore;
    if s != [] {
      var n := |s| - 1;
      OrderSorts(s[..n]);
      InsertOrdered(Order(s[..n]), s[n]);
      InsertMembers(Order(s[..n]), s[n]);
      assert s == s[..n] + [s[n]];
      assert |multiset(Order(s))| == |Order(s)| && |multiset(s)| == |s|;
      assert forall y :: y in Order(s) <==> y in multiset(Order(s));
      forall i, j | 0 <= i < j < |s| ensures GoesFirst(Order(s)[i], Order(s)[j]) {
        NotBefore(Order(s)[i], Order(s)[j]);
      }
    }
  }

  /** Both pending or both not, and created at the same time. */
  ghost predicate SameRank(a: Replica, b: Replica) {
    (Pending(a) <==> Pending(b)) && a.createdAt == b.createdAt
  }

  ghost function Peers(s: seq<Replica>, x: Replica): seq<Replica> {
    if s == [] then [] else (if SameRank(s[0], x) then [s[0]] else []) + Peers(s[1..], x)
  }

  lemma {:induction false} PeersAppend(a: seq<Replica>, b: seq<Replica>, x: Replica)
    ensures Peers(a + b, x) == Peers(a, x) + Peers(b, x)
  {
    hide SameRank;
    if a == [] {
      assert a + b == b;
    } else {
      PeersAppend(a[1..], b, x);
      assert (a + b)[1..] == a[1..] + b;
    }
  }

  lemma {:induction false} InsertKeepsPeers(sorted: seq<Replica>, x: Replica, y: Replica)
    requires Ordered(sorted)
    ensures Peers(InsertStable(sorted, x), y) == Peers(sorted + [x], y)
  {
    if sorted == [] {
      assert sorted + [x] == [x];
    } else if DrainsBefore(x, sorted[0]) {
      PeersAppend(sorted, [x], y);
      PeersAppend([x], sorted, y);
      if SameRank(x, y) {
        NoPeersBehind(sorted, x, y);
      }
      assert Peers([x], y) + Peers(sorted, y) == Peers(sorted, y) + Peers([x], y);
    } else {
      InsertKeepsPeers(sorted[1..], x, y);
      assert (sorted + [x])[1..] == sorted[1..] + [x];
      assert InsertStable(sorted, x)[1..] == InsertStable(sorted[1..], x);
    }
  }

  lemma {:induction false} NoPeersBehind(sorted: seq<Replica>, x: Replica, y: Replica)
    requires Ordered(sorted) && SameRank(x, y)
    requires sorted != [] ==> DrainsBefore(x, sorted[0])
    ensures Peers(sorted, y) == []
  {
    if sorted != [] {
      if |sorted| > 1 {
        assert !DrainsBefore(sorted[1], sorted[0]);
      }
      NoPeersBehind(sorted[1..], x, y);
    }
  }

  /** The sort is stable: rows that rank alike keep their listed order. */
  lemma {:induction false} OrderIsStable(s: seq<Replica>, y: Replica)
    ensures Peers(Order(s), y) == Peers(s, y)
  {
    if s != [] {
      var n := |s| - 1;
      OrderSorts(s[..n]);
      OrderIsStable(s[..n], y);
      InsertKeepsPeers(Order(s[..n]), s[n], y);
      PeersAppend(Order(s[..n]), [s[n]], y);
      PeersAppend(s[..n], [s[n]], y);
      assert s == s[..n] + [s[n]];
    }
  }
}
