/** Exactly when the capacity bound needs its last term: a pass removed a row whose boot was under way
    (internal/usecase/fleet_replica_runtime.go:230-456, internal/usecase/fleet_orchestrator.go:786-802). */
module FleetStranded {
  import opened Text
  import opened FleetTypes
  import opened SurplusOrder
  import opened FleetPass
  import opened FleetPassFacts
  import opened FleetCapacity
  import opened FleetConvergence
  import opened FleetDecommission
  import opened FleetOrchestrator
  import opened FleetSteps
  import opened FleetOverlap
  import opened FleetMachine
  import opened FleetRuns
  import opened FleetBound

  // ---------------------------------------------------------------- runs end to end

  lemma OneState(s: Fleet)
    ensures Continues([s], [])
  {}

  lemma OneStep(s: Fleet, m: Move, s': Fleet)
    requires Next(s, m, s')
    ensures Continues([s, s'], [m])
  {
    hide Next;
  }

  function Joined(run: seq<Fleet>, more: seq<Fleet>): seq<Fleet>
    requires more != []
  {
    run + more[1..]
  }

  lemma RunsJoin(run: seq<Fleet>, moves: seq<Move>, more: seq<Fleet>, next: seq<Move>)
    requires Continues(run, moves) && Continues(more, next) && run[|moves|] == more[0]
    ensures var all := Joined(run, more);
            && Continues(all, moves + next) && all[0] == run[0] && all[|moves + next|] == more[|next|]
            && (forall i :: 0 <= i <= |moves| ==> all[i] == run[i])
            && (forall i :: 0 <= i <= |next| ==> all[|moves| + i] == more[i])
  {
    hide Next;
    var (all, ms) := (Joined(run, more), moves + next);
    forall i | 0 <= i <= |next| ensures all[|moves| + i] == more[i] {}
    forall i | 0 <= i < |ms| ensures Next(all[i], ms[i], all[i + 1]) {
      if i < |moves| {
        assert Next(run[i], moves[i], run[i + 1]);
      } else {
        var j := i - |moves|;
        assert Next(more[j], next[j], more[j + 1]);
        assert all[i] == more[j] && all[i + 1] == more[j + 1];
      }
    }
  }

  // ---------------------------------------------------------------- a pass with nothing in between

  /** No row this pass listed is its host's. */
  ghost predicate Foreign(f: Flight) { forall i :: 0 <= i < |f.listed| ==> !Owns(f.host, f.listed[i]) }

  lemma ForeignCall(rows: Rows, f: Flight)
    requires Foreign(f)
    ensures !f.pc.Burying? && !f.pc.Shedding? ==> Extends(rows, Call(rows, f).0)
    ensures !f.pc.Burying? && !f.pc.Shedding? && |OccupantsOf(f)| <= f.app.desired && Call(rows, f).1.Some? ==>
              !Call(rows, f).1.value.Burying? && !Call(rows, f).1.value.Shedding?
  {
    hide OccupantsOf;
    hide FirstFailed;
    hide DrainOf;
  }

  ghost predicate Growing(f: Flight) {
    Foreign(f) && |OccupantsOf(f)| <= f.app.desired && !f.pc.Burying? && !f.pc.Shedding?
  }

  /** The fleet while only pass p moves: nothing else changes hands. */
  ghost predicate OnlyPass(s: Fleet, s': Fleet, p: nat) {
    && s'.holder == s.holder && s'.desired == s.desired && s'.boots == s.boots
    && s'.flights.Keys <= s.flights.Keys
    && (forall q :: q in s.flights && q != p ==> q in s'.flights && s'.flights[q] == s.flights[q])
    && (forall q :: q in s'.flights ==> s'.flights[q].app == s.flights[q].app && s'.flights[q].env == s.flights[q].env)
  }

  lemma SteppedOnly(s: Fleet, p: nat)
    requires p in s.flights
    ensures OnlyPass(s, Stepped(s, p), p)
  {
    hide Call;
  }

  /** Any pass can be run to its end: it leaves the table it leaves alone. */
  lemma {:induction false} RunOut(s: Fleet, p: nat) returns (run: seq<Fleet>, moves: seq<Move>)
    requires p in s.flights
    ensures Continues(run, moves) && run[0] == s
    ensures forall i :: 0 <= i < |moves| ==> moves[i] == Step(p)
    ensures forall i :: 0 <= i < |run| ==> OnlyPass(s, run[i], p)
    ensures Growing(s.flights[p]) ==> Extends(s.rows, run[|moves|].rows) && Grows(run)
    ensures var last := run[|moves|];
            p !in last.flights && last.rows == Alone(s.rows, s.flights[p])
    decreases Left(s.flights[p])
  {
    hide Next;
    hide Alone;
    hide Call;
    hide Continues;
    hide Growing;
    hide OnlyPass;
    hide Extends;
    hide Left;
    var (f, s') := (s.flights[p], Stepped(s, p));
    var pc := Call(s.rows, f).1;
    CallEnds(s.rows, f);
    AloneStep(s.rows, f);
    SteppedOnly(s, p);
    assert Next(s, Step(p), s') by { StepIsNext(s, p); }
    OneStep(s, Step(p), s');
    if Growing(f) {
      GrowingOn(s.rows, f);
      assert Grows([s, s']);
    }
    OnlyPassSelf(s, p);
    if pc.None? {
      run, moves := [s, s'], [Step(p)];
    } else {
      var more, next := RunOut(s', p);
      RunLength(more, next);
      RunsJoin([s, s'], [Step(p)], more, next);
      run, moves := Joined([s, s'], more), [Step(p)] + next;
      OnlyPassChains(s, s', p, run, more);
      if Growing(f) {
        GrowthChains(s, s', run, more, |next|);
      }
    }
  }

  lemma RunLength(run: seq<Fleet>, moves: seq<Move>)
    requires Continues(run, moves)
    ensures |run| == |moves| + 1
  {
    hide Next;
  }

  lemma OnlyPassSelf(s: Fleet, p: nat)
    ensures OnlyPass(s, s, p) && Extends(s.rows, s.rows)
  {}

  lemma StepIsNext(s: Fleet, p: nat)
    requires p in s.flights
    ensures Next(s, Step(p), Stepped(s, p))
  {}

  lemma GrowingOn(rows: Rows, f: Flight)
    requires Growing(f)
    ensures Extends(rows, Call(rows, f).0)
    ensures Call(rows, f).1.Some? ==> Growing(f.(pc := Call(rows, f).1.value))
  {
    hide Call;
    hide OccupantsOf;
    ForeignCall(rows, f);
    if Call(rows, f).1.Some? {
      SameDecision(f, Call(rows, f).1.value);
    }
  }

  lemma OnlyPassChains(s: Fleet, s': Fleet, p: nat, run: seq<Fleet>, more: seq<Fleet>)
    requires more != [] && more[0] == s' && run == Joined([s, s'], more) && OnlyPass(s, s', p)
    requires forall i :: 0 <= i < |more| ==> OnlyPass(s', more[i], p)
    ensures forall i :: 0 <= i < |run| ==> OnlyPass(s, run[i], p)
  {
    forall i | 0 <= i < |run| ensures OnlyPass(s, run[i], p) {
      assert i > 0 ==> run[i] == more[i - 1];
    }
  }

  /** No step of the run takes a row away or changes one. */
  ghost predicate Grows(run: seq<Fleet>) {
    forall i :: 0 <= i < |run| - 1 ==> Extends(run[i].rows, run[i + 1].rows)
  }

  lemma GrowthChains(s: Fleet, s': Fleet, run: seq<Fleet>, more: seq<Fleet>, n: nat)
    requires |more| == n + 1 && more[0] == s' && run == Joined([s, s'], more)
    requires Extends(s.rows, s'.rows) && Grows(more) && Extends(s'.rows, more[n].rows)
    ensures Grows(run) && Extends(s.rows, more[n].rows)
  {
    hide Extends;
    assert Extends(s.rows, more[n].rows) by { ExtendsChain(s.rows, s'.rows, more[n].rows); }
    forall i | 0 <= i < |run| - 1 ensures Extends(run[i].rows, run[i + 1].rows) {
      if i > 0 {
        assert run[i] == more[i - 1] && run[i + 1] == more[i];
      }
    }
  }

  lemma ExtendsChain(a: Rows, b: Rows, c: Rows)
    requires Extends(a, b) && Extends(b, c)
    ensures Extends(a, c)
  {}

  // ---------------------------------------------------------------- picking what is new

  lemma {:induction false} Above(used: set<nat>) returns (bound: nat)
    ensures forall x :: x in used ==> x < bound
    decreases |used|
  {
    if used == {} {
      return 0;
    }
    var x :| x in used;
    var b := Above(used - {x});
    bound := if x < b then b else x + 1;
    forall y | y in used ensures y < bound {
      assert y == x || y in used - {x};
    }
  }

  function IdsFrom(first: Id, n: nat): (out: seq<Id>)
    ensures |out| == n && forall i :: 0 <= i < n ==> out[i] == first + i
  {
    seq(n, i requires 0 <= i < n => first + i)
  }

  function HostTimes(x: Id, n: nat): (out: seq<Pick>)
    ensures |out| == n && forall i :: 0 <= i < n ==> out[i] == Host(x)
  {
    seq(n, i requires 0 <= i < n => Host(x))
  }

  /** Everything works and the scheduler answers this host. */
  function FillEnv(x: Id, first: Id, n: nat): Env {
    Env({}, map[], false, Unpinned, false, true, Unpinned, HostTimes(x, n), IdsFrom(first, n), {}, 0)
  }

  /** The rows of an app can be listed. */
  lemma {:induction false} SomeListing(rows: Rows, app: Id) returns (listed: seq<Replica>)
    requires WellKeyed(rows)
    ensures Lists(rows, app, listed)
    decreases |rows|
  {
    if rows == map[] {
      return [];
    }
    var id :| id in rows;
    var less := rows - {id};
    assert |less| < |rows| by { assert less.Keys == rows.Keys - {id}; assert |less.Keys| == |less| && |rows.Keys| == |rows|; }
    var rest := SomeListing(less, app);
    listed := if rows[id].app == app then rest + [rows[id]] else rest;
    forall x | x in rows && rows[x].app == app ensures rows[x] in listed {
      assert x != id ==> less[x] in rest;
    }
    forall i, j | 0 <= i < j < |listed| ensures listed[i].id != listed[j].id {
      assert listed[i] in rest;
    }
  }

  ghost function UsedIds(s: Fleet): set<Id> {
    s.stamps.Keys + set p, i | p in s.flights && 0 <= i < |s.flights[p].env.freshIds| :: s.flights[p].env.freshIds[i]
  }

  lemma FreshAbove(s: Fleet, first: Id, n: nat)
    requires forall x :: x in UsedIds(s) ==> x < first
    ensures Fresh(s, IdsFrom(first, n))
  {
    var ids := IdsFrom(first, n);
    forall id | id in ids ensures id !in UsedIds(s) {
      var i :| 0 <= i < n && ids[i] == id;
    }
    forall p, i | p in s.flights && 0 <= i < |s.flights[p].env.freshIds| ensures s.flights[p].env.freshIds[i] !in ids {
      assert s.flights[p].env.freshIds[i] in UsedIds(s);
    }
  }

  lemma PassUsesFreshIds(self: Id, app: App, env: Env, rows: Rows, listed: seq<Replica>)
    ensures forall id :: id in Pass(self, app, env, rows, listed).rows ==> id in rows || id in env.freshIds
  {
    hide LocalCopies;
    hide CleanupActions;
    hide DrainList;
    hide FirstFailed;
    hide Occupants;
    var (cleaned, seen) := (Cleaned(self, app.id, env, rows), |Occupants(LocalCopies(self, env, listed))|);
    if seen < app.desired {
      PlaceUsesFreshIds(app, env, cleaned, 0, app.desired - seen);
    }
  }

  // ---------------------------------------------------------------- filling up to the desired count

  lemma FillCooperates(x: Id, first: Id, n: nat, a: Id, rows: Rows)
    requires forall id :: id in rows ==> id < first
    ensures Cooperative(App(a, n), FillEnv(x, first, n), rows) && AllHealthy(FillEnv(x, first, n)) && !GivesUp(FillEnv(x, first, n))
  {}

  /** What a fresh healthy pass at desired count n leaves, its host owning nothing. */
  lemma FillResult(s: Fleet, f: Flight, a: Id, n: nat, first: Id)
    requires WellKeyed(s.rows) && Lists(s.rows, a, f.listed) && |OccIds(s.rows, a)| <= n
    requires forall id :: id in s.rows ==> id < first
    requires f == Flight(f.host, App(a, n), FillEnv(f.host, first, n), f.listed, Cleaning(0))
    ensures var rows := Alone(s.rows, f);
            && |OccIds(rows, a)| == n
            && forall id :: id in rows ==> id in s.rows || id >= first
  {
    hide Alone;
    hide Finish;
    hide Pass;
    hide Lists;
    hide OccIds;
    var env := FillEnv(f.host, first, n);
    AloneIsFinish(s.rows, f);
    FreshFinishIsPass(f.host, App(a, n), env, s.rows, f.listed);
    FillCooperates(f.host, first, n, a, s.rows);
    HealthyPass(f.host, App(a, n), env, s.rows, f.listed);
    PassUsesFreshIds(f.host, App(a, n), env, s.rows, f.listed);
    forall id | id in Alone(s.rows, f) ensures id in s.rows || id >= first {
      if id in env.freshIds {
        var i :| 0 <= i < n && env.freshIds[i] == id;
      }
    }
  }

  lemma ListerGrows(s: Fleet, f: Flight, a: Id, n: nat)
    requires Keyed(s) && Lists(s.rows, a, f.listed) && f.app == App(a, n) && f.pc == Cleaning(0) && f.env.probes == map[]
    requires |OccIds(s.rows, a)| <= n && forall id :: id in s.stamps ==> s.stamps[id] != Some(f.host)
    ensures Growing(f)
  {
    hide LocalCopies;
    forall i | 0 <= i < |f.listed| ensures !Owns(f.host, f.listed[i]) {
      assert f.listed[i] in f.listed;
      assert Stamped(s, f.listed[i].id, f.listed[i].host);
    }
    OccupantsCount(f.host, a, f.env, s.rows, f.listed);
  }

  lemma NobodyUnrecorded(x: Id, env: Env, listed: seq<Replica>)
    requires env.probes == map[]
    ensures Unrecorded(x, env, listed) == {}
  {}

  /** A run in which passes of the app do not overlap, want at most most rows, record every death, and
      strand no boot. */
  ghost predicate Tame(run: seq<Fleet>, moves: seq<Move>, a: Id, most: nat) {
    && |run| == |moves| + 1
    && (forall i :: 0 <= i < |run| ==> |InFlight(run[i], a)| <= 1)
    && (forall i :: 0 <= i < |moves| ==> Modest(run[i], moves[i], a, most, 0) && Stranded(run[i + 1], a) <= Stranded(run[i], a))
  }

  lemma TameJoins(run: seq<Fleet>, moves: seq<Move>, more: seq<Fleet>, next: seq<Move>, a: Id, most: nat)
    requires Tame(run, moves, a, most) && Tame(more, next, a, most) && run[|moves|] == more[0]
    ensures Tame(Joined(run, more), moves + next, a, most)
  {
    hide InFlight;
    hide Modest;
    hide Stranded;
    var (all, ms) := (Joined(run, more), moves + next);
    forall i | 0 <= i < |all| ensures |InFlight(all[i], a)| <= 1 {
      assert i >= |run| ==> all[i] == more[i - |moves|];
    }
    forall i | 0 <= i < |ms| ensures Modest(all[i], ms[i], a, most, 0) && Stranded(all[i + 1], a) <= Stranded(all[i], a) {
      if i >= |moves| {
        var j := i - |moves|;
        assert all[i] == more[j] && all[i + 1] == more[j + 1] && ms[i] == next[j];
      }
    }
  }

  lemma SameBootsStranded(s: Fleet, s': Fleet, a: Id)
    requires s'.holder == s.holder && Extends(s.rows, s'.rows)
    ensures Stranded(s', a) <= Stranded(s, a) && UnderBoot(s', a) == UnderBoot(s, a)
  {}

  lemma FewFlights(s: Fleet, s': Fleet, p: nat, a: Id)
    requires InFlight(s, a) <= {p} && OnlyPass(s, s', p)
    ensures |InFlight(s', a)| <= 1 && InFlight(s', a) <= {p}
  {
    assert InFlight(s', a) <= {p};
    SubsetSize(InFlight(s', a), {p});
  }

  lemma TableBelow(s: Fleet, first: Id)
    requires Inv(s) && forall x :: x in UsedIds(s) ==> x < first
    ensures forall id :: id in s.rows ==> id < first
    ensures forall id :: id in s.stamps ==> id < first
  {
    hide FlightOk;
    hide WorkerOk;
    assert forall id :: id in s.stamps ==> id in UsedIds(s);
    forall id | id in s.rows ensures id < first {
      RowStamped(s, id);
    }
  }

  lemma TableKeyedToo(s: Fleet)
    requires Inv(s)
    ensures Keyed(s) && WellKeyed(s.rows)
  {
    hide FlightOk;
    hide WorkerOk;
  }

  /** The choice of a new pass number, a host without rows, new ids and a listing. */
  lemma NewPass(s: Fleet, a: Id) returns (p: nat, x: Id, first: Id, listed: seq<Replica>)
    requires Inv(s)
    ensures p !in s.flights && Lists(s.rows, a, listed)
    ensures forall id :: id in s.stamps ==> s.stamps[id] != Some(x)
    ensures forall id :: id in s.rows ==> id < first
    ensures forall id :: id in s.stamps ==> id < first
    ensures forall n: nat :: Fresh(s, IdsFrom(first, n))
  {
    hide Inv;
    hide Fresh;
    TableKeyedToo(s);
    p := Above(s.flights.Keys);
    var hosts := set id | id in s.stamps && s.stamps[id].Some? :: s.stamps[id].value;
    x := Above(hosts);
    forall id | id in s.stamps ensures s.stamps[id] != Some(x) {
      assert s.stamps[id].Some? ==> s.stamps[id].value in hosts;
    }
    first := Above(UsedIds(s));
    TableBelow(s, first);
    forall n: nat ensures Fresh(s, IdsFrom(first, n)) {
      FreshAbove(s, first, n);
    }
    listed := SomeListing(s.rows, a);
  }

  /** From a state with no pass of the app under way and no more than n occupants, wanting n: one pass
      brings the count exactly to n, taking no row away and touching no boot. */
  lemma FillUp(s: Fleet, a: Id, n: nat) returns (run: seq<Fleet>, moves: seq<Move>)
    requires Inv(s) && InFlight(s, a) == {} && a in s.desired && s.desired[a] == n && |OccIds(s.rows, a)| <= n
    ensures Continues(run, moves) && run[0] == s && Tame(run, moves, a, n)
    ensures var last := run[|moves|];
            && InFlight(last, a) == {} && last.holder == s.holder && last.desired == s.desired
            && Extends(s.rows, last.rows) && |OccIds(last.rows, a)| == n
            && forall id :: id in last.rows && id !in s.rows ==> id !in s.stamps
  {
    hide Inv;
    hide OccIds;
    hide Next;
    hide Alone;
    hide Fresh;
    hide Lists;
    hide Growing;
    hide Continues;
    hide Tame;
    hide Keyed;
    hide WellKeyed;
    hide Grows;
    var p, x, first, listed := NewPass(s, a);
    TableKeyedToo(s);
    var m := List(p, x, a, FillEnv(x, first, n), listed);
    var f := Flight(x, App(a, n), FillEnv(x, first, n), listed, Cleaning(0));
    var s1 := s.(flights := s.flights[p := f]);
    assert Next(s, m, s1) by { ListIsNext(s, m, s1, n, first); }
    OneStep(s, m, s1);
    FillResult(s, f, a, n, first);
    ListerGrows(s, f, a, n);
    var more, next := RunOut(s1, p);
    RunLength(more, next);
    RunsJoin([s, s1], [m], more, next);
    run, moves := Joined([s, s1], more), [m] + next;
    FillIsTame(s, s1, m, p, a, n, more, next);
    TameJoins([s, s1], [m], more, next, a, n);
    var last := more[|next|];
    assert InFlight(last, a) == {} by { NoneLeft(s1, last, p, a); }
  }

  lemma NoneLeft(s: Fleet, s': Fleet, p: nat, a: Id)
    requires OnlyPass(s, s', p) && p !in s'.flights && InFlight(s, a) <= {p}
    ensures InFlight(s', a) == {}
  {
    forall q ensures q !in InFlight(s', a) {
      assert q in s'.flights && q != p ==> q !in InFlight(s, a);
    }
  }

  lemma ListIsNext(s: Fleet, m: Move, s1: Fleet, n: nat, first: Id)
    requires m.List? && m.p !in s.flights && m.app in s.desired && s.desired[m.app] == n
    requires m.env == FillEnv(m.host, first, n)
    requires Lists(s.rows, m.app, m.listed) && Fresh(s, IdsFrom(first, n))
    requires s1 == s.(flights := s.flights[m.p := Flight(m.host, App(m.app, n), m.env, m.listed, Cleaning(0))])
    ensures Next(s, m, s1)
  {
    hide Lists;
    hide Fresh;
  }

  lemma TameStep(s: Fleet, m: Move, s': Fleet, a: Id, most: nat)
    requires |InFlight(s, a)| <= 1 && |InFlight(s', a)| <= 1 && Modest(s, m, a, most, 0) && Stranded(s', a) <= Stranded(s, a)
    ensures Tame([s, s'], [m], a, most)
  {
    hide InFlight;
    hide Modest;
    hide Stranded;
    var (run, moves) := ([s, s'], [m]);
    forall i | 0 <= i < |run| ensures |InFlight(run[i], a)| <= 1 {
      assert i == 0 || i == 1;
    }
    forall i | 0 <= i < |moves| ensures Modest(run[i], moves[i], a, most, 0) && Stranded(run[i + 1], a) <= Stranded(run[i], a) {
      assert i == 0;
    }
  }

  lemma FillIsTame(s: Fleet, s1: Fleet, m: Move, p: nat, a: Id, n: nat, more: seq<Fleet>, next: seq<Move>)
    requires m.List? && m.p == p && m.app == a && m.env.probes == map[] && s1.rows == s.rows && s1.holder == s.holder
    requires InFlight(s, a) == {} && InFlight(s1, a) <= {p} && a in s.desired && s.desired[a] == n
    requires |more| == |next| + 1 && more[0] == s1
    requires forall i :: 0 <= i < |next| ==> next[i] == Step(p)
    requires forall i :: 0 <= i < |more| ==> OnlyPass(s1, more[i], p)
    requires Grows(more)
    ensures Tame([s, s1], [m], a, n) && Tame(more, next, a, n)
  {
    hide InFlight;
    hide Stranded;
    hide Next;
    NobodyUnrecorded(m.host, m.env, m.listed);
    SameBootsStranded(s, s1, a);
    OnlyPassSelf(s1, p);
    FewFlights(s1, s1, p, a);
    TameStep(s, m, s1, a, n);
    forall i | 0 <= i < |more| ensures |InFlight(more[i], a)| <= 1 {
      FewFlights(s1, more[i], p, a);
    }
    forall i | 0 <= i < |next| ensures Stranded(more[i + 1], a) <= Stranded(more[i], a) {
      SameBootsStranded(more[i], more[i + 1], a);
    }
  }

  // ---------------------------------------------------------------- a stranded boot overshoots

  /** The write a boot under way makes next, if it lands. */
  ghost function NextWrite(s: Fleet, h: nat): Move
    requires InBoot(s, h)
  {
    if s.holder[h].boot.value.saved then FinishBoot(h, CameUp) else SaveBooting(h, true)
  }

  ghost function AfterWrite(s: Fleet, h: nat): Fleet
    requires InBoot(s, h)
  {
    var b := s.holder[h].boot.value;
    if b.saved then Written(s, h, Resident, None)
    else Written(s, h, Booting, Some(Boot(b.row.(state := Booting), true))).(boots := s.boots + [Deed(s.holder[h].host, b.row.id)])
  }

  lemma WriteIsNext(s: Fleet, h: nat)
    requires InBoot(s, h)
    ensures Next(s, NextWrite(s, h), AfterWrite(s, h))
  {}

  lemma WriteAdds(s: Fleet, h: nat, a: Id)
    requires InBoot(s, h) && s.holder[h].boot.value.row.app == a
    ensures var s' := AfterWrite(s, h);
            && OccIds(s'.rows, a) == OccIds(s.rows, a) + {s.holder[h].boot.value.row.id}
            && UnderBoot(s', a) <= UnderBoot(s, a) && s'.flights == s.flights
  {
    var s' := AfterWrite(s, h);
    forall x | x in UnderBoot(s', a) ensures x in UnderBoot(s, a) {
      var k :| k in s'.holder && s'.holder[k].boot.Some? && s'.holder[k].boot.value.row.app == a && s'.holder[k].boot.value.row.id == x;
      assert s.holder[k].boot.Some? && s.holder[k].boot.value.row.app == a && s.holder[k].boot.value.row.id == x;
    }
  }

  lemma StrandedBoot(s: Fleet, a: Id) returns (h: nat)
    requires Inv(s) && Stranded(s, a) != {}
    ensures InBoot(s, h) && s.holder[h].boot.value.row.app == a
    ensures s.holder[h].boot.value.row.id !in OccIds(s.rows, a) && s.holder[h].boot.value.row.id in s.stamps
  {
    hide FlightOk;
    var id :| id in Stranded(s, a);
    h :| h in s.holder && s.holder[h].boot.Some? && s.holder[h].boot.value.row.app == a && s.holder[h].boot.value.row.id == id;
    assert WorkerOk(s, h);
  }

  lemma StillStranded(s: Fleet, s': Fleet, a: Id, id: Id)
    requires Extends(s.rows, s'.rows) && id in s.stamps && id !in OccIds(s.rows, a)
    requires forall x :: x in s'.rows && x !in s.rows ==> x !in s.stamps
    ensures id !in OccIds(s'.rows, a)
  {}

  lemma RescaleIsNext(s: Fleet, a: Id, n: nat)
    ensures Next(s, Rescale(a, n), s.(desired := s.desired[a := n]))
  {}

  /** From any state with a stranded boot and no pass of the app under way: without stranding another
      boot, without two passes overlapping, with every death recorded and never wanting more than most
      rows, the fleet can come to most + 1 occupants. */
  lemma StrandedOvershoots(s: Fleet, a: Id, most: nat) returns (run: seq<Fleet>, moves: seq<Move>)
    requires Inv(s) && InFlight(s, a) == {} && |OccIds(s.rows, a)| <= most && Stranded(s, a) != {}
    ensures Continues(run, moves) && run[0] == s && Tame(run, moves, a, most)
    ensures |OccIds(run[|moves|].rows, a)| == most + 1
  {
    hide Inv;
    hide Next;
    hide OccIds;
    hide Continues;
    hide Tame;
    hide Extends;
    hide UnderBoot;
    var h := StrandedBoot(s, a);
    var id := s.holder[h].boot.value.row.id;
    var s1 := s.(desired := s.desired[a := most]);
    RescaleIsNext(s, a, most);
    OneStep(s, Rescale(a, most), s1);
    RescaleKeepsInv(s, s1.desired);
    SameStranded(s, s1, a);
    TameStep(s, Rescale(a, most), s1, a, most);
    var fill, fills := FillUp(s1, a, most);
    RunLength(fill, fills);
    var s2 := fill[|fills|];
    StillStranded(s1, s2, a, id);
    WriteIsNext(s2, h);
    WriteAdds(s2, h, a);
    var s3 := AfterWrite(s2, h);
    OneStep(s2, NextWrite(s2, h), s3);
    assert Stranded(s3, a) <= Stranded(s2, a);
    assert InFlight(s3, a) == InFlight(s2, a);
    TameStep(s2, NextWrite(s2, h), s3, a, most);
    RunsJoin([s, s1], [Rescale(a, most)], fill, fills);
    TameJoins([s, s1], [Rescale(a, most)], fill, fills, a, most);
    var (run1, moves1) := (Joined([s, s1], fill), [Rescale(a, most)] + fills);
    RunLength(run1, moves1);
    RunsJoin(run1, moves1, [s2, s3], [NextWrite(s2, h)]);
    TameJoins(run1, moves1, [s2, s3], [NextWrite(s2, h)], a, most);
    run, moves := Joined(run1, [s2, s3]), moves1 + [NextWrite(s2, h)];
  }

  lemma SameStranded(s: Fleet, s': Fleet, a: Id)
    requires s'.rows == s.rows && s'.holder == s.holder && s'.flights == s.flights
    ensures Stranded(s', a) == Stranded(s, a) && InFlight(s', a) == InFlight(s, a)
  {}

  lemma NoStrandStaysNone(run: seq<Fleet>, moves: seq<Move>, a: Id, most: nat, k: nat)
    requires Tame(run, moves, a, most) && k < |run| && Stranded(run[0], a) == {}
    ensures Stranded(run[k], a) == {}
  {
    hide Stranded;
    hide InFlight;
    hide Modest;
    if k > 0 {
      NoStrandStaysNone(run, moves, a, most, k - 1);
      assert Stranded(run[k - 1 + 1], a) <= Stranded(run[k - 1], a);
    }
  }

  lemma TameStaysWithin(run: seq<Fleet>, moves: seq<Move>, a: Id, most: nat)
    requires Continues(run, moves) && Tame(run, moves, a, most) && Inv(run[0]) && InFlight(run[0], a) == {}
    requires Stranded(run[0], a) == {} && |OccIds(run[0].rows, a)| <= most
    ensures |OccIds(run[|moves|].rows, a)| <= most
  {
    hide Inv;
    hide Next;
    hide OccIds;
    hide UnderBoot;
    hide Modest;
    forall id | id in UnderBoot(run[0], a) ensures id in OccIds(run[0].rows, a) {
      assert id !in Stranded(run[0], a);
    }
    assert Held(run[0], a) == OccIds(run[0].rows, a);
    forall k | 0 <= k < |run| ensures Stranded(run[k], a) == {} {
      NoStrandStaysNone(run, moves, a, most, k);
    }
    hide Stranded;
    assert Granted(run, moves, |moves|, a, 1, most, 0, 0);
    hide Granted;
    hide Continues;
    hide Tame;
    HeldOverRuns(run, moves, |moves|, a, 1, most, 0, 0);
  }

  ghost predicate Overshoots(s: Fleet, a: Id, most: nat) {
    exists run: seq<Fleet>, moves: seq<Move> ::
      Continues(run, moves) && run[0] == s && Tame(run, moves, a, most) && |OccIds(run[|moves|].rows, a)| > most
  }

  /** Exactly when the last term of the bound is needed: of any state with no pass of the app under way
      and at most most occupants, no boot's row has been removed from under it if and only if no tame run
      from there, wanting at most most rows, ever comes to more than most occupants. */
  lemma StrandedIff(s: Fleet, a: Id, most: nat)
    requires Inv(s) && InFlight(s, a) == {} && |OccIds(s.rows, a)| <= most
    ensures Stranded(s, a) == {} <==> !Overshoots(s, a, most)
  {
    hide Inv;
    hide Next;
    hide OccIds;
    hide Stranded;
    hide Tame;
    hide InFlight;
    if Stranded(s, a) == {} {
      forall run: seq<Fleet>, moves: seq<Move> | Continues(run, moves) && run[0] == s && Tame(run, moves, a, most)
        ensures |OccIds(run[|moves|].rows, a)| <= most
      {
        TameStaysWithin(run, moves, a, most);
      }
    } else {
      var run, moves := StrandedOvershoots(s, a, most);
    }
  }

  /** DecommissionApp destroys files, routes or the app row when the re-listed set is empty. No boot of the
      app is then under way if and only if none is stranded; FilesGoUnderABoot is a run that has one. */
  lemma DestroysUnderBootIff(s: Fleet, self: Id, a: Id, d: TeardownEnv, c: Control, listed: seq<Replica>)
    requires Destroys(a, c, Decommission(self, a, d, c, listed).0)
    requires s.rows == Pass(self, App(a, 0), d.pass, c.rows, listed).rows
    ensures UnderBoot(s, a) == {} <==> Stranded(s, a) == {}
  {
    hide Pass;
    hide UnderBoot;
    DestroysOnlyWhenSafe(self, a, d, c, listed);
    hide Decommission;
    assert OccIds(s.rows, a) <= RowsOf(s.rows, a);
  }

  // ---------------------------------------------------------------- instances

  /** A healthy pass on the host that has all the rows of an app scaled to zero leaves none. */
  lemma DrainResult(s: Fleet, f: Flight, a: Id)
    requires WellKeyed(s.rows) && Lists(s.rows, a, f.listed)
    requires f == Flight(f.host, App(a, 0), FillEnv(f.host, 0, 0), f.listed, Cleaning(0))
    requires forall id :: id in OccIds(s.rows, a) ==> Owns(f.host, s.rows[id])
    ensures OccIds(Alone(s.rows, f), a) == {} && Alone(s.rows, f).Keys <= s.rows.Keys
  {
    hide Alone;
    hide Finish;
    hide Pass;
    hide Lists;
    var env := FillEnv(f.host, 0, 0);
    AloneIsFinish(s.rows, f);
    FreshFinishIsPass(f.host, App(a, 0), env, s.rows, f.listed);
    assert Cooperative(App(a, 0), env, s.rows) && AllHealthy(env);
    HealthyPass(f.host, App(a, 0), env, s.rows, f.listed);
    PassUsesFreshIds(f.host, App(a, 0), env, s.rows, f.listed);
    var after := OccIds(Alone(s.rows, f), a);
    assert |OccIds(s.rows, a)| > 0 ==> forall id :: id in after ==> id in OwnedBy(s.rows, after, f.host);
  }

  /** One pass of this host over the app, listed now, to its end. */
  lemma WholePass(s: Fleet, p: nat, host: Id, a: Id, n: nat, env: Env, listed: seq<Replica>) returns (run: seq<Fleet>, moves: seq<Move>)
    requires p !in s.flights && a in s.desired && s.desired[a] == n && Lists(s.rows, a, listed) && Fresh(s, env.freshIds)
    ensures Continues(run, moves) && run[0] == s
    ensures var (f, last) := (Flight(host, App(a, n), env, listed, Cleaning(0)), run[|moves|]);
            && last.rows == Alone(s.rows, f) && last.holder == s.holder && last.desired == s.desired && last.flights == s.flights
    ensures forall i :: 0 <= i < |moves| && moves[i].List? ==> moves[i].app == a && run[i].desired == s.desired && moves[i].env == env
    ensures forall i :: 0 <= i < |run| ==> InFlight(run[i], a) <= InFlight(s, a) + {p}
  {
    hide Next;
    hide Alone;
    hide Fresh;
    hide Lists;
    hide Continues;
    hide Growing;
    var m := List(p, host, a, env, listed);
    var f := Flight(host, App(a, n), env, listed, Cleaning(0));
    var s1 := s.(flights := s.flights[p := f]);
    assert Next(s, m, s1) by { ListingIsNext(s, m, s1); }
    OneStep(s, m, s1);
    var more, next := RunOut(s1, p);
    RunLength(more, next);
    RunsJoin([s, s1], [m], more, next);
    run, moves := Joined([s, s1], more), [m] + next;
    assert more[|next|].flights == s.flights;
    forall i | 0 <= i < |run| ensures InFlight(run[i], a) <= InFlight(s, a) + {p} {
      if i > 0 {
        assert run[i] == more[i - 1] && OnlyPass(s1, more[i - 1], p);
      }
    }
  }

  lemma ListingIsNext(s: Fleet, m: Move, s1: Fleet)
    requires m.List? && m.p !in s.flights && m.app in s.desired && Lists(s.rows, m.app, m.listed) && Fresh(s, m.env.freshIds)
    requires s1 == s.(flights := s.flights[m.p := Flight(m.host, App(m.app, s.desired[m.app]), m.env, m.listed, Cleaning(0))])
    ensures Next(s, m, s1)
  {
    hide Lists;
    hide Fresh;
  }

  /** Passes of the app do not overlap, want at most most rows and record every death. */
  ghost predicate Calm(run: seq<Fleet>, moves: seq<Move>, a: Id, most: nat) {
    && |run| == |moves| + 1
    && (forall i :: 0 <= i < |run| ==> |InFlight(run[i], a)| <= 1)
    && (forall i :: 0 <= i < |moves| ==> Modest(run[i], moves[i], a, most, 0))
  }

  lemma CalmJoins(run: seq<Fleet>, moves: seq<Move>, more: seq<Fleet>, next: seq<Move>, a: Id, most: nat)
    requires Calm(run, moves, a, most) && Calm(more, next, a, most) && run[|moves|] == more[0]
    ensures Calm(Joined(run, more), moves + next, a, most)
  {
    hide InFlight;
    hide Modest;
    var (all, ms) := (Joined(run, more), moves + next);
    forall i | 0 <= i < |all| ensures |InFlight(all[i], a)| <= 1 {
      assert i >= |run| ==> all[i] == more[i - |moves|];
    }
    forall i | 0 <= i < |ms| ensures Modest(all[i], ms[i], a, most, 0) {
      if i >= |moves| {
        var j := i - |moves|;
        assert all[i] == more[j] && ms[i] == next[j];
      }
    }
  }

  lemma TameIsCalm(run: seq<Fleet>, moves: seq<Move>, a: Id, most: nat)
    requires Tame(run, moves, a, most)
    ensures Calm(run, moves, a, most)
  {
    hide InFlight;
    hide Modest;
    hide Stranded;
  }

  const ROW: Replica := Replica(20, 10, Some(1), Scheduled, 0)

  /** One scheduled row, loaded by its host's actuation pass and written back as booting; then the app is
      scaled to zero. */
  function BootBegun(k: nat): Fleet {
    var copy := ROW.(state := Booting);
    var holder := if k == 0 then map[]
                  else if k == 1 then map[0 := Worker(1, [20], None)]
                  else if k == 2 then map[0 := Worker(1, [], Some(Boot(ROW, false)))]
                  else map[0 := Worker(1, [], Some(Boot(copy, true)))];
    Fleet(map[20 := if k < 3 then ROW else copy], map[10 := if k < 4 then 1 else 0], holder, map[],
          map[20 := Some(1)], if k < 3 then [] else [Deed(1, 20)], [])
  }

  lemma BootBegins() returns (run: seq<Fleet>, moves: seq<Move>)
    ensures Continues(run, moves) && run[0] == BootBegun(0) && run[|moves|] == BootBegun(4) && Calm(run, moves, 10, 1)
    ensures Quiet(run[0])
  {
    hide Next;
    hide Calm;
    hide Quiet;
    hide BootBegun;
    moves := [Enter(1, 0, [20]), Load(0), SaveBooting(0, true), Rescale(10, 0)];
    run := [BootBegun(0), BootBegun(1), BootBegun(2), BootBegun(3), BootBegun(4)];
    EnterIsNext();
    LoadIsNext();
    SaveIsNext();
    ScaledToZero();
    forall i: nat | i < |run| ensures run[i] == BootBegun(i) {}
    BeginningIsCalm(run, moves);
    BeginsQuiet();
  }

  lemma BeginsQuiet()
    ensures Quiet(BootBegun(0))
  {}

  lemma BeginningIsCalm(run: seq<Fleet>, moves: seq<Move>)
    requires |run| == |moves| + 1 && forall i: nat :: i < |run| ==> run[i] == BootBegun(i)
    requires forall i :: 0 <= i < |moves| ==> !moves[i].List?
    ensures Calm(run, moves, 10, 1)
  {
    forall i: nat | i < |run| ensures |InFlight(run[i], 10)| <= 1 {
      assert run[i] == BootBegun(i);
      assert InFlight(run[i], 10) == {};
    }
  }

  lemma ScaledToZero()
    ensures Next(BootBegun(3), Rescale(10, 0), BootBegun(4))
  {
    assert map[10 := 1][10 := 0] == map[10 := 0];
  }

  lemma EnterIsNext()
    ensures Next(BootBegun(0), Enter(1, 0, [20]), BootBegun(1))
  {}

  lemma LoadIsNext()
    ensures Next(BootBegun(1), Load(0), BootBegun(2))
  {
    assert [20][1..] == [];
  }

  lemma SaveIsNext()
    ensures Next(BootBegun(2), SaveBooting(0, true), BootBegun(3))
  {
    assert map[20 := ROW][20 := ROW.(state := Booting)] == map[20 := ROW.(state := Booting)];
    assert [] + [Deed(1, 20)] == [Deed(1, 20)];
  }

  /** Then its host's pass drains it: the table is empty and the boot still under way. */
  lemma BootIsDrained() returns (run: seq<Fleet>, moves: seq<Move>)
    ensures IsRun(run, moves) && Calm(run, moves, 10, 1) && |OccIds(run[0].rows, 10)| == 1
    ensures Inv(run[|moves|]) && InFlight(run[|moves|], 10) == {} && OccIds(run[|moves|].rows, 10) == {}
    ensures 20 in Stranded(run[|moves|], 10) && RowsOf(run[|moves|].rows, 10) == {}
  {
    hide Next;
    hide Continues;
    hide Calm;
    hide Inv;
    hide Stranded;
    hide Alone;
    var run0, moves0 := BootBegins();
    RunLength(run0, moves0);
    var (s4, copy) := (BootBegun(4), ROW.(state := Booting));
    var run1, moves1 := WholePass(s4, 0, 1, 10, 0, FillEnv(1, 0, 0), [copy]);
    RunLength(run1, moves1);
    var s5 := run1[|moves1|];
    DrainResult(s4, Flight(1, App(10, 0), FillEnv(1, 0, 0), [copy], Cleaning(0)), 10);
    assert Calm(run1, moves1, 10, 1) by { DrainIsCalm(s4, run1, moves1); }
    RunsJoin(run0, moves0, run1, moves1);
    CalmJoins(run0, moves0, run1, moves1, 10, 1);
    run, moves := Joined(run0, run1), moves0 + moves1;
    RunLength(run, moves);
    assert Inv(s5) by {
      QuietInv(run[0]);
      ContinuesKeepsInv(run, moves, |moves|);
    }
    assert 20 in Stranded(s5, 10) by { StrandedTwenty(s5); }
    assert RowsOf(s5.rows, 10) == {} by { DrainedTwenty(s5); }
    assert OccIds(run[0].rows, 10) == {20};
  }

  lemma DrainedTwenty(s: Fleet)
    requires Inv(s) && s.holder == BootBegun(4).holder && OccIds(s.rows, 10) == {} && s.rows.Keys <= {20}
    ensures RowsOf(s.rows, 10) == {}
  {
    hide FlightOk;
    assert WorkerOk(s, 0) && BootOk(s, 1, s.holder[0].boot.value);
    forall id ensures id !in RowsOf(s.rows, 10) {
      assert 20 in s.rows ==> s.rows[20].state == Booting;
      assert 20 !in OccIds(s.rows, 10);
    }
  }

  ghost predicate Cooperates(a: Id, d: TeardownEnv, c: Control) {
    a in c.desired && d.loads && d.ledger == NoClaim && d.updates && d.relists && d.volumesDeleted && d.routesDeleted && d.rowDeleted
  }

  /** The teardown looks at rows only, never at boots: with no row listed it goes through. */
  lemma TeardownIgnoresBoots(self: Id, a: Id, d: TeardownEnv, c: Control)
    requires WellKeyed(c.rows) && RowsOf(c.rows, a) == {} && Cooperates(a, d, c)
    ensures var (c', v) := Decommission(self, a, d, c, []);
            v.Done? && a !in c'.desired && (d.pass.volumes ==> a !in c'.volumes)
  {
    hide Pass;
    hide Decommission;
    hide WellKeyed;
    EmptyPass(self, a, d.pass, c.rows);
    DestroysOnlyWhenSafe(self, a, d, c, []);
  }

  /** So after that drain every cooperative teardown, on any host, deletes the backing files and the app
      row while the boot that may have them open is under way. */
  lemma FilesGoUnderABoot() returns (run: seq<Fleet>, moves: seq<Move>)
    ensures IsRun(run, moves) && Calm(run, moves, 10, 1) && 20 in UnderBoot(run[|moves|], 10)
    ensures forall self: Id, d: TeardownEnv, c: Control :: c.rows == run[|moves|].rows && Cooperates(10, d, c) ==>
              var (c', v) := Decommission(self, 10, d, c, []);
              v.Done? && 10 !in c'.desired && (d.pass.volumes ==> 10 !in c'.volumes)
  {
    hide Next;
    hide Calm;
    hide Inv;
    hide OccIds;
    hide UnderBoot;
    hide Decommission;
    run, moves := BootIsDrained();
    TableKeyedToo(run[|moves|]);
    hide IsRun;
    hide WellKeyed;
    forall self: Id, d: TeardownEnv, c: Control | c.rows == run[|moves|].rows && Cooperates(10, d, c)
      ensures var (c', v) := Decommission(self, 10, d, c, []);
              v.Done? && 10 !in c'.desired && (d.pass.volumes ==> 10 !in c'.volumes)
    {
      TeardownIgnoresBoots(self, 10, d, c);
    }
  }

  /** The failing run: nothing overlaps but a boot and the passes, every death is recorded, never is more
      than one row wanted, and the app comes to two: a row is scheduled, its boot begins, the app is scaled
      to zero and the row drained, scaled back to one and a new row created, and the boot writes the old
      row back. */
  lemma DrainedBootDoublesTheApp() returns (run: seq<Fleet>, moves: seq<Move>)
    ensures IsRun(run, moves) && Calm(run, moves, 10, 1) && |OccIds(run[0].rows, 10)| == 1
    ensures |OccIds(run[|moves|].rows, 10)| == 2
  {
    hide Next;
    hide Continues;
    hide Calm;
    hide Tame;
    hide Inv;
    hide Stranded;
    hide OccIds;
    hide Quiet;
    var run2, moves2 := BootIsDrained();
    RunLength(run2, moves2);
    var run3, moves3 := StrandedOvershoots(run2[|moves2|], 10, 1);
    RunLength(run3, moves3);
    TameIsCalm(run3, moves3, 10, 1);
    RunsJoin(run2, moves2, run3, moves3);
    CalmJoins(run2, moves2, run3, moves3, 10, 1);
    run, moves := Joined(run2, run3), moves2 + moves3;
  }

  lemma StrandedTwenty(s: Fleet)
    requires s.holder == BootBegun(4).holder && OccIds(s.rows, 10) == {}
    ensures 20 in Stranded(s, 10)
  {
    assert s.holder[0].boot.value.row.id == 20;
  }

  lemma DrainIsCalm(s: Fleet, run: seq<Fleet>, moves: seq<Move>)
    requires s == BootBegun(4) && |run| == |moves| + 1
    requires forall i :: 0 <= i < |moves| && moves[i].List? ==> moves[i].app == 10 && run[i].desired == s.desired && moves[i].env.probes == map[]
    requires forall i :: 0 <= i < |run| ==> InFlight(run[i], 10) <= InFlight(s, 10) + {0}
    ensures Calm(run, moves, 10, 1)
  {
    assert InFlight(s, 10) == {};
    forall i | 0 <= i < |run| ensures |InFlight(run[i], 10)| <= 1 {
      SubsetSize(InFlight(run[i], 10), {0});
    }
    forall i | 0 <= i < |moves| ensures Modest(run[i], moves[i], 10, 1, 0) {
      if moves[i].List? {
        NobodyUnrecorded(moves[i].host, moves[i].env, moves[i].listed);
      }
    }
  }
}
