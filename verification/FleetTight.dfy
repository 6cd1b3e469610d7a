/** The capacity bound is reached: c passes that list before any of them creates, and h boots whose rows
    were removed, take an app to exactly c times its desired count and h more. */
module FleetTight {
  import opened Text
  import opened FleetTypes
  import opened SurplusOrder
  import opened FleetPass
  import opened FleetPassFacts
  import opened FleetCapacity
  import opened FleetOrchestrator
  import opened FleetSteps
  import opened FleetOverlap
  import opened FleetMachine
  import opened FleetRuns
  import opened FleetBound
  import opened FleetStranded

  /** All that a run of the app shows is at most c passes under way, wanting d rows each, every death
      recorded. */
  ghost predicate Overlaps(run: seq<Fleet>, moves: seq<Move>, a: Id, c: nat, d: nat) {
    && |run| == |moves| + 1
    && (forall i :: 0 <= i < |run| ==> |InFlight(run[i], a)| <= c)
    && (forall i :: 0 <= i < |moves| ==> Modest(run[i], moves[i], a, d, 0))
  }

  lemma OverlapsJoin(run: seq<Fleet>, moves: seq<Move>, more: seq<Fleet>, next: seq<Move>, a: Id, c: nat, d: nat)
    requires Overlaps(run, moves, a, c, d) && Overlaps(more, next, a, c, d) && run[|moves|] == more[0]
    ensures Overlaps(Joined(run, more), moves + next, a, c, d)
  {
    hide InFlight;
    hide Modest;
    var (all, ms) := (Joined(run, more), moves + next);
    forall i | 0 <= i < |all| ensures |InFlight(all[i], a)| <= c {
      assert i >= |run| ==> all[i] == more[i - |moves|];
    }
    forall i | 0 <= i < |ms| ensures Modest(all[i], ms[i], a, d, 0) {
      if i >= |moves| {
        var j := i - |moves|;
        assert all[i] == more[j] && ms[i] == next[j];
      }
    }
  }

  lemma OverlapsStep(s: Fleet, m: Move, s': Fleet, a: Id, c: nat, d: nat)
    requires |InFlight(s, a)| <= c && |InFlight(s', a)| <= c && Modest(s, m, a, d, 0)
    ensures Overlaps([s, s'], [m], a, c, d)
  {
    hide InFlight;
    hide Modest;
    var (run, moves) := ([s, s'], [m]);
    forall i | 0 <= i < |run| ensures |InFlight(run[i], a)| <= c {
      assert i == 0 || i == 1;
    }
  }

  // ---------------------------------------------------------------- passes that listed nothing

  /** A pass that has listed an empty table, about to act. */
  function Blind(x: Id, a: Id, first: Id, d: nat): Flight {
    Flight(x, App(a, d), FillEnv(x, first, d), [], Cleaning(0))
  }

  lemma BlindGrows(x: Id, a: Id, first: Id, d: nat)
    ensures Growing(Blind(x, a, first, d)) && OccupantsOf(Blind(x, a, first, d)) == []
  {
    assert LocalCopies(x, FillEnv(x, first, d), []) == [];
  }

  /** It makes its whole desired count, whatever is there by now. */
  lemma BlindResult(rows: Rows, x: Id, a: Id, first: Id, d: nat)
    requires WellKeyed(rows) && forall id :: id in IdsFrom(first, d) ==> id !in rows
    ensures var out := Alone(rows, Blind(x, a, first, d));
            && |OccIds(out, a)| == |OccIds(rows, a)| + d
            && forall id :: id in out && id !in rows ==> id >= first
  {
    hide Alone;
    hide OccIds;
    hide FirstFailed;
    var (f, env, app) := (Blind(x, a, first, d), FillEnv(x, first, d), App(a, d));
    AloneIsFinish(rows, f);
    BlindGrows(x, a, first, d);
    NothingFails(env, CleanupActions(x, env, []));
    assert CleanedBy(x, env, rows, []) == rows;
    assert forall i :: 0 <= i < d ==> env.freshIds[i] in IdsFrom(first, d);
    if d > 0 {
      PlaceAll(app, env, rows, 0, d);
      PlaceUsesFreshIds(app, env, rows, 0, d);
    }
    forall id | id in Alone(rows, f) && id !in rows ensures id >= first {
      assert id in env.freshIds;
      var i :| 0 <= i < d && env.freshIds[i] == id;
    }
  }

  lemma UnusedIds(s: Fleet, p: nat, x: Id, a: Id, first: Id, d: nat)
    requires Inv(s) && p in s.flights && s.flights[p] == Blind(x, a, first, d)
    ensures forall id :: id in IdsFrom(first, d) ==> id !in s.rows
    ensures WellKeyed(s.rows)
  {
    hide WorkerOk;
    hide Grown;
    hide Gone;
    var f := s.flights[p];
    assert FlightOk(s, f);
    forall id | id in IdsFrom(first, d) ensures id !in s.rows {
      var i :| 0 <= i < d && f.env.freshIds[i] == id;
      assert id !in s.stamps;
      assert forall x :: x in s.rows ==> Stamped(s, x, s.rows[x].host);
    }
  }

  lemma FlightsAdd(s: Fleet, p: nat, f: Flight, a: Id)
    requires p !in s.flights && f.app.id == a
    ensures InFlight(s.(flights := s.flights[p := f]), a) == InFlight(s, a) + {p}
    ensures |InFlight(s.(flights := s.flights[p := f]), a)| == |InFlight(s, a)| + 1
  {
    assert InFlight(s.(flights := s.flights[p := f]), a) == InFlight(s, a) + {p};
  }

  /** What k overlapping passes leave: k times d rows more, under ids nobody had. */
  ghost predicate Piled(s: Fleet, t: Fleet, a: Id, d: nat, k: nat) {
    && t.flights == s.flights && t.holder == s.holder && t.desired == s.desired
    && Extends(s.rows, t.rows) && |OccIds(t.rows, a)| == |OccIds(s.rows, a)| + k * d
    && forall id :: id in t.rows && id !in s.rows ==> id !in s.stamps
  }

  /** One pass lists; the others list and act; then it acts on its empty listing. */
  lemma {:induction false} PileUp(s: Fleet, a: Id, d: nat, k: nat, c: nat) returns (run: seq<Fleet>, moves: seq<Move>)
    requires Inv(s) && Lists(s.rows, a, []) && a in s.desired && s.desired[a] == d && |InFlight(s, a)| + k <= c
    ensures Continues(run, moves) && run[0] == s && Overlaps(run, moves, a, c, d) && Piled(s, run[|moves|], a, d, k)
    decreases k
  {
    hide Next;
    hide Inv;
    hide Continues;
    hide Overlaps;
    hide Fresh;
    hide Lists;
    hide Piled;
    hide InFlight;
    hide Alone;
    hide Growing;
    if k == 0 {
      OneState(s);
      run, moves := [s], [];
      NothingOverlaps(s, a, c, d);
      NothingPiled(s, a, d);
      return;
    }
    var p, x, first, _ := NewPass(s, a);
    var f := Blind(x, a, first, d);
    var m := List(p, x, a, f.env, []);
    var s1 := s.(flights := s.flights[p := f]);
    assert Next(s, m, s1) by { ListingIsNext(s, m, s1); }
    OneStep(s, m, s1);
    FlightsAdd(s, p, f, a);
    NextKeepsInv(s, m, s1);
    NobodyUnrecorded(x, f.env, []);
    OverlapsStep(s, m, s1, a, c, d);
    var run1, moves1 := PileUp(s1, a, d, k - 1, c);
    RunLength(run1, moves1);
    var t := run1[|moves1|];
    assert Inv(t) by { ContinuesKeepsInv(run1, moves1, |moves1|); }
    var run2, moves2 := LastActs(s, s1, t, p, x, a, first, d, k, c);
    RunLength(run2, moves2);
    RunsJoin([s, s1], [m], run1, moves1);
    OverlapsJoin([s, s1], [m], run1, moves1, a, c, d);
    var (run3, moves3) := (Joined([s, s1], run1), [m] + moves1);
    RunLength(run3, moves3);
    RunsJoin(run3, moves3, run2, moves2);
    OverlapsJoin(run3, moves3, run2, moves2, a, c, d);
    run, moves := Joined(run3, run2), moves3 + moves2;
  }

  lemma LastActs(s: Fleet, s1: Fleet, t: Fleet, p: nat, x: Id, a: Id, first: Id, d: nat, k: nat, c: nat)
    returns (run: seq<Fleet>, moves: seq<Move>)
    requires k > 0 && p !in s.flights && s1 == s.(flights := s.flights[p := Blind(x, a, first, d)])
    requires Inv(t) && Piled(s1, t, a, d, k - 1) && |InFlight(s1, a)| <= c
    requires forall id :: id in s.stamps ==> id < first
    ensures Continues(run, moves) && run[0] == t && Overlaps(run, moves, a, c, d) && Piled(s, run[|moves|], a, d, k)
  {
    hide Next;
    hide Inv;
    hide Continues;
    hide Overlaps;
    hide Piled;
    hide InFlight;
    hide Alone;
    hide Growing;
    hide OccIds;
    hide Extends;
    PiledFlights(s1, t, a, d, k - 1);
    run, moves := RunOut(t, p);
    RunLength(run, moves);
    BlindGrows(x, a, first, d);
    UnusedIds(t, p, x, a, first, d);
    BlindResult(t.rows, x, a, first, d);
    LastOverlaps(s1, t, p, a, c, d, run, moves);
    PileOne(s, s1, t, run[|moves|], p, a, d, k, first);
  }

  lemma NothingOverlaps(s: Fleet, a: Id, c: nat, d: nat)
    requires |InFlight(s, a)| <= c
    ensures Overlaps([s], [], a, c, d)
  {
    hide InFlight;
  }

  lemma NothingPiled(s: Fleet, a: Id, d: nat)
    ensures Piled(s, s, a, d, 0)
  {}

  lemma PiledFlights(s: Fleet, t: Fleet, a: Id, d: nat, k: nat)
    requires Piled(s, t, a, d, k)
    ensures t.flights == s.flights
  {}

  lemma LastOverlaps(s1: Fleet, t: Fleet, p: nat, a: Id, c: nat, d: nat, run: seq<Fleet>, moves: seq<Move>)
    requires |run| == |moves| + 1 && t.flights == s1.flights && |InFlight(s1, a)| <= c
    requires forall i :: 0 <= i < |moves| ==> moves[i] == Step(p)
    requires forall i :: 0 <= i < |run| ==> OnlyPass(t, run[i], p)
    ensures Overlaps(run, moves, a, c, d)
  {
    forall i | 0 <= i < |run| ensures |InFlight(run[i], a)| <= c {
      assert InFlight(run[i], a) <= InFlight(s1, a);
      SubsetSize(InFlight(run[i], a), InFlight(s1, a));
    }
  }

  lemma PileOne(s: Fleet, s1: Fleet, t: Fleet, last: Fleet, p: nat, a: Id, d: nat, k: nat, first: Id)
    requires k > 0 && p !in s.flights && s1 == s.(flights := s1.flights) && s1.flights.Keys == s.flights.Keys + {p}
    requires forall q :: q in s.flights ==> s1.flights[q] == s.flights[q]
    requires Piled(s1, t, a, d, k - 1) && OnlyPass(t, last, p) && p !in last.flights && Extends(t.rows, last.rows)
    requires |OccIds(last.rows, a)| == |OccIds(t.rows, a)| + d
    requires forall id :: id in s.stamps ==> id < first
    requires forall id :: id in last.rows && id !in t.rows ==> id >= first
    ensures Piled(s, last, a, d, k)
  {
    hide OccIds;
    assert last.flights == s.flights;
    OneMoreTimes(k - 1, d);
    ExtendsChain(s.rows, t.rows, last.rows);
  }

  // ---------------------------------------------------------------- the stranded boots write

  lemma WriteUnstrands(s: Fleet, h: nat, a: Id)
    requires InBoot(s, h) && s.holder[h].boot.value.row.app == a
    ensures Stranded(AfterWrite(s, h), a) == Stranded(s, a) - {s.holder[h].boot.value.row.id}
  {
    var (s', id) := (AfterWrite(s, h), s.holder[h].boot.value.row.id);
    WriteAdds(s, h, a);
    forall x | x in UnderBoot(s, a) && x != id ensures x in UnderBoot(s', a) {
      var k :| k in s.holder && s.holder[k].boot.Some? && s.holder[k].boot.value.row.app == a && s.holder[k].boot.value.row.id == x;
      assert k != h && s'.holder[k] == s.holder[k];
    }
  }

  lemma WriteIsModest(s: Fleet, h: nat, a: Id, c: nat, d: nat)
    requires InBoot(s, h) && |InFlight(s, a)| <= c
    ensures Overlaps([s, AfterWrite(s, h)], [NextWrite(s, h)], a, c, d)
  {
    assert InFlight(AfterWrite(s, h), a) == InFlight(s, a);
    OverlapsStep(s, NextWrite(s, h), AfterWrite(s, h), a, c, d);
  }

  lemma {:induction false} AllWrite(s: Fleet, a: Id, c: nat, d: nat) returns (run: seq<Fleet>, moves: seq<Move>)
    requires Inv(s) && |InFlight(s, a)| <= c
    ensures Continues(run, moves) && run[0] == s && Overlaps(run, moves, a, c, d)
    ensures |OccIds(run[|moves|].rows, a)| == |OccIds(s.rows, a)| + |Stranded(s, a)|
    decreases |Stranded(s, a)|
  {
    hide Next;
    hide Inv;
    hide Continues;
    hide Overlaps;
    hide InFlight;
    hide UnderBoot;
    hide OccIds;
    if Stranded(s, a) == {} {
      OneState(s);
      NothingOverlaps(s, a, c, d);
      return [s], [];
    }
    var h := StrandedBoot(s, a);
    var (m, s', id) := (NextWrite(s, h), AfterWrite(s, h), s.holder[h].boot.value.row.id);
    WriteIsNext(s, h);
    OneStep(s, m, s');
    WriteAdds(s, h, a);
    WriteUnstrands(s, h, a);
    WriteIsModest(s, h, a, c, d);
    NextKeepsInv(s, m, s');
    assert id in Stranded(s, a) by { StrandedId(s, h, a); }
    assert InFlight(s', a) == InFlight(s, a) by { SameFlights(s, s', a); }
    var more, next := AllWrite(s', a, c, d);
    RunLength(more, next);
    RunsJoin([s, s'], [m], more, next);
    OverlapsJoin([s, s'], [m], more, next, a, c, d);
    run, moves := Joined([s, s'], more), [m] + next;
  }

  lemma StrandedId(s: Fleet, h: nat, a: Id)
    requires InBoot(s, h) && s.holder[h].boot.value.row.app == a && s.holder[h].boot.value.row.id !in OccIds(s.rows, a)
    ensures s.holder[h].boot.value.row.id in Stranded(s, a)
  {}

  lemma SameFlights(s: Fleet, s': Fleet, a: Id)
    requires s'.flights == s.flights
    ensures InFlight(s', a) == InFlight(s, a)
  {}

  lemma PiledStranded(s: Fleet, t: Fleet, a: Id, d: nat, k: nat)
    requires Inv(s) && Piled(s, t, a, d, k)
    ensures Stranded(t, a) == Stranded(s, a)
  {
    hide FlightOk;
    hide WorkerOk;
    assert UnderBoot(t, a) == UnderBoot(s, a);
    forall id | id in UnderBoot(s, a) && id in OccIds(t.rows, a) ensures id in OccIds(s.rows, a) {
      assert id in Held(s, a);
      HeldIsStamped(s, a, id);
    }
  }

  /** The bound is exact. From any state in which the app has no row and no pass under way, with every
      death recorded and never more than d rows wanted: c passes that overlap, and the boots whose rows
      were removed, take it to exactly c * d + h occupants, h being the stranded boots. From an empty
      fleet two overlapping passes already double the app. */
  lemma OverlapReachesBound(s: Fleet, a: Id, d: nat, c: nat) returns (run: seq<Fleet>, moves: seq<Move>)
    requires Inv(s) && Lists(s.rows, a, []) && InFlight(s, a) == {}
    ensures Continues(run, moves) && run[0] == s && Overlaps(run, moves, a, c, d)
    ensures |OccIds(run[|moves|].rows, a)| == c * d + |Stranded(s, a)|
  {
    hide Next;
    hide Inv;
    hide Continues;
    hide Overlaps;
    hide Stranded;
    assert OccIds(s.rows, a) == {};
    hide Lists;
    hide OccIds;
    hide InFlight;
    var (m, s1) := (Rescale(a, d), s.(desired := s.desired[a := d]));
    RescaleIsNext(s, a, d);
    OneStep(s, m, s1);
    RescaleKeepsInv(s, s1.desired);
    SameStranded(s, s1, a);
    OverlapsStep(s, m, s1, a, c, d);
    var run1, moves1 := PileUp(s1, a, d, c, c);
    RunLength(run1, moves1);
    var t := run1[|moves1|];
    assert Inv(t) by { ContinuesKeepsInv(run1, moves1, |moves1|); }
    PiledStranded(s1, t, a, d, c);
    SameFlights(s1, t, a);
    var run2, moves2 := AllWrite(t, a, c, d);
    RunLength(run2, moves2);
    RunsJoin([s, s1], [m], run1, moves1);
    OverlapsJoin([s, s1], [m], run1, moves1, a, c, d);
    var (run3, moves3) := (Joined([s, s1], run1), [m] + moves1);
    RunLength(run3, moves3);
    RunsJoin(run3, moves3, run2, moves2);
    OverlapsJoin(run3, moves3, run2, moves2, a, c, d);
    run, moves := Joined(run3, run2), moves3 + moves2;
  }
}
