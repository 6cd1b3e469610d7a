/** Capacity over every interleaving of single store calls: of overlapping passes, and of boots that end
    by writing back a row which a pass has meanwhile removed
    (internal/usecase/fleet_orchestrator.go:559-821, internal/usecase/fleet_replica_runtime.go:230-380). */
module FleetBound {
  import opened Text
  import opened FleetTypes
  import opened SurplusOrder
  import opened FleetPass
  import opened FleetPassFacts
  import opened FleetCapacity
  import opened FleetOrchestrator
  import opened FleetSteps
  import opened FleetOverlap
  import opened FleetMachine
  import opened FleetRuns

  // ---------------------------------------------------------------- what is held

  /** The rows of this app that a boot under way will write back. */
  ghost function UnderBoot(s: Fleet, a: Id): set<Id> {
    set h | h in s.holder && s.holder[h].boot.Some? && s.holder[h].boot.value.row.app == a :: s.holder[h].boot.value.row.id
  }

  /** The rows that count, now or as soon as their boot writes. */
  ghost function Held(s: Fleet, a: Id): set<Id> { OccIds(s.rows, a) + UnderBoot(s, a) }

  /** The boots under way whose row some pass has removed. */
  ghost function Stranded(s: Fleet, a: Id): set<Id> { UnderBoot(s, a) - OccIds(s.rows, a) }

  /** The passes of this app that are under way. */
  ghost function InFlight(s: Fleet, a: Id): set<nat> { set p | p in s.flights && s.flights[p].app.id == a }

  ghost function Made(f: Flight): set<Id> { set j | 0 <= j < Used(f) && j < |f.env.freshIds| :: f.env.freshIds[j] }

  /** The occupants a pass knows of: those it listed and those it made. */
  ghost function KnownTo(f: Flight): set<Id> { Shown(f.listed) + Made(f) }

  /** The held rows none of these passes knows of. */
  ghost function Unseen(s: Fleet, a: Id, ps: set<nat>): set<Id> {
    set id | id in Held(s, a) && forall p :: p in ps && p in s.flights ==> id !in KnownTo(s.flights[p])
  }

  /** How many held rows n passes may all be unaware of, when c may overlap, none wants more than most
      rows, and at most h boots are stranded at once. */
  ghost function Allowance(start: nat, c: nat, most: nat, h: nat, n: nat): int {
    if n == 0 then Max(start, c * most + h) else (c - n) * most + h
  }

  ghost predicate Bounded(s: Fleet, a: Id, start: nat, c: nat, most: nat, h: nat) {
    forall ps :: ps <= InFlight(s, a) ==> |Unseen(s, a, ps)| <= Allowance(start, c, most, h, |ps|)
  }

  /** A pass that is placing will not take what it knows of past what it wants. */
  ghost predicate InQuota(s: Fleet, f: Flight, most: nat) {
    f.pc.Placing? ==> f.pc.n <= Shortfall(f) && |KnownTo(f) * Held(s, f.app.id)| + Shortfall(f) - f.pc.n <= most
  }

  ghost predicate Wants(f: Flight, most: nat) {
    f.app.desired + |Unrecorded(f.host, f.env, f.listed)| <= most
  }

  ghost predicate FlightsIn(s: Fleet, a: Id, most: nat) {
    forall p :: p in s.flights && s.flights[p].app.id == a ==> InQuota(s, s.flights[p], most) && Wants(s.flights[p], most)
  }

  // ---------------------------------------------------------------- arithmetic of the allowance

  lemma OneMoreTimes(k: nat, most: nat)
    ensures (k + 1) * most == k * most + most && k * most >= 0
  {}

  lemma AllowanceSteps(start: nat, c: nat, most: nat, h: nat, n: nat)
    requires n < c
    ensures Allowance(start, c, most, h, n + 1) + most <= Allowance(start, c, most, h, n)
  {
    OneMoreTimes(c - n - 1, most);
    if n == 0 {
      OneMoreTimes(c - 1, most);
    }
  }

  lemma AllowanceCovers(start: nat, c: nat, most: nat, h: nat, n: nat)
    requires n <= c
    ensures Allowance(start, c, most, h, n) >= h
  {
    OneMoreTimes(c - n, most);
    OneMoreTimes(c, most);
  }

  lemma TwoCover(x: set<Id>, a: set<Id>, b: set<Id>)
    requires forall id :: id in x ==> id in a || id in b
    ensures |x| <= |a| + |b|
  {
    assert x <= a + b;
    SubsetSize(x, a + b);
  }

  // ---------------------------------------------------------------- steps that hold no more

  ghost predicate SamePass(f: Flight, g: Flight) {
    g.host == f.host && g.app == f.app && g.env == f.env && g.listed == f.listed && KnownTo(g) == KnownTo(f)
  }

  /** The passes that go on are old ones, knowing what they knew. */
  ghost predicate OldPasses(s: Fleet, s': Fleet) {
    forall p :: p in s'.flights ==> p in s.flights && SamePass(s.flights[p], s'.flights[p])
  }

  lemma UnseenShrinks(s: Fleet, s': Fleet, a: Id, ps: set<nat>)
    requires Held(s', a) <= Held(s, a) && OldPasses(s, s') && ps <= InFlight(s', a)
    ensures ps <= InFlight(s, a) && |Unseen(s', a, ps)| <= |Unseen(s, a, ps)|
  {
    hide Held;
    hide KnownTo;
    forall id | id in Unseen(s', a, ps) ensures id in Unseen(s, a, ps) {
      forall p | p in ps && p in s.flights ensures id !in KnownTo(s.flights[p]) {
        assert p in s'.flights && SamePass(s.flights[p], s'.flights[p]);
      }
    }
    SubsetSize(Unseen(s', a, ps), Unseen(s, a, ps));
  }

  lemma ShrinkKeepsBound(s: Fleet, s': Fleet, a: Id, start: nat, c: nat, most: nat, h: nat)
    requires Bounded(s, a, start, c, most, h) && Held(s', a) <= Held(s, a) && OldPasses(s, s')
    ensures Bounded(s', a, start, c, most, h)
  {
    hide Unseen;
    hide Allowance;
    hide InFlight;
    hide OldPasses;
    hide Held;
    forall ps | ps <= InFlight(s', a) ensures |Unseen(s', a, ps)| <= Allowance(start, c, most, h, |ps|) {
      UnseenShrinks(s, s', a, ps);
    }
  }

  lemma QuotaShrinks(s: Fleet, s': Fleet, f: Flight, most: nat)
    requires InQuota(s, f, most) && Held(s', f.app.id) <= Held(s, f.app.id)
    ensures InQuota(s', f, most)
  {
    hide Held;
    hide KnownTo;
    var (k, k') := (KnownTo(f) * Held(s, f.app.id), KnownTo(f) * Held(s', f.app.id));
    assert k' <= k;
    SubsetSize(k', k);
  }

  // ---------------------------------------------------------------- listing

  lemma ListedShown(rows: Rows, a: Id, listed: seq<Replica>)
    requires WellKeyed(rows) && Lists(rows, a, listed)
    ensures OccIds(rows, a) <= Shown(listed)
  {
    forall id | id in OccIds(rows, a) ensures id in Shown(listed) {
      assert rows[id] in listed && rows[id].id == id;
    }
  }

  /** A fresh listing shows every occupant, so only stranded boots are unknown to it. */
  lemma UnseenWithLister(s: Fleet, m: Move, s': Fleet, a: Id, ps: set<nat>)
    requires m.List? && Next(s, m, s') && WellKeyed(s.rows) && ps <= InFlight(s', a)
    ensures m.p in ps ==> Unseen(s', a, ps) <= Stranded(s, a)
    ensures m.p !in ps ==> ps <= InFlight(s, a) && Unseen(s', a, ps) == Unseen(s, a, ps)
  {
    hide OccIds;
    hide Shown;
    hide Made;
    hide Lists;
    hide Fresh;
    assert UnderBoot(s', a) == UnderBoot(s, a);
    hide UnderBoot;
    if m.p in ps {
      ListedShown(s.rows, a, m.listed);
    }
  }

  lemma ListKeepsBound(s: Fleet, m: Move, s': Fleet, a: Id, start: nat, c: nat, most: nat, h: nat)
    requires m.List? && Next(s, m, s') && WellKeyed(s.rows) && Bounded(s, a, start, c, most, h)
    requires |InFlight(s', a)| <= c && |Stranded(s, a)| <= h
    ensures Bounded(s', a, start, c, most, h)
  {
    hide Unseen;
    hide Allowance;
    hide InFlight;
    hide Stranded;
    hide Next;
    forall ps | ps <= InFlight(s', a) ensures |Unseen(s', a, ps)| <= Allowance(start, c, most, h, |ps|) {
      SubsetSize(ps, InFlight(s', a));
      AllowanceCovers(start, c, most, h, |ps|);
      UnseenWithLister(s, m, s', a, ps);
      if m.p in ps {
        SubsetSize(Unseen(s', a, ps), Stranded(s, a));
      }
    }
  }

  // ---------------------------------------------------------------- creating

  lemma HeldIsStamped(s: Fleet, a: Id, id: Id)
    requires Inv(s) && id in Held(s, a)
    ensures id in s.stamps
  {
    hide FlightOk;
    if id in OccIds(s.rows, a) {
      RowStamped(s, id);
    } else {
      var h :| h in s.holder && s.holder[h].boot.Some? && s.holder[h].boot.value.row.id == id;
      assert WorkerOk(s, h);
    }
  }

  lemma KnownIsStamped(s: Fleet, f: Flight, id: Id)
    requires FlightOk(s, f) && id in KnownTo(f)
    ensures id in s.stamps
  {
    hide Grown;
    hide Gone;
    if id in Shown(f.listed) {
      var r :| r in f.listed && Occupies(r.state) && r.id == id;
      var i :| 0 <= i < |f.listed| && f.listed[i] == r;
      assert ListedOk(s, f, f.listed[i]);
    }
  }

  lemma OneRowMore(rows: Rows, r: Replica, a: Id)
    ensures OccIds(rows[r.id := r], a) <= OccIds(rows, a) + (if r.app == a then {r.id} else {})
  {}

  /** One more row, known to the pass that made it and to no other. */
  lemma CreatedFacts(s: Fleet, p: nat, r: Replica)
    requires p in s.flights && s.flights[p].pc.Placing? && r.id !in s.rows
    requires Used(s.flights[p]) < |s.flights[p].env.freshIds| && r.id == s.flights[p].env.freshIds[Used(s.flights[p])]
    ensures var (s', f) := (Created(s, p, r), s.flights[p]);
            && (forall a :: Held(s', a) <= Held(s, a) + (if r.app == a then {r.id} else {}))
            && KnownTo(s'.flights[p]) == KnownTo(f) + {r.id}
            && Shortfall(s'.flights[p]) == Shortfall(f)
  {
    hide Shown;
    hide Shortfall;
    hide OccIds;
    var (s', f) := (Created(s, p, r), s.flights[p]);
    SameDecision(f, Placing(Used(f) + 1));
    forall a ensures OccIds(s'.rows, a) <= OccIds(s.rows, a) + (if r.app == a then {r.id} else {}) {
      OneRowMore(s.rows, r, a);
    }
    forall a ensures Held(s', a) <= Held(s, a) + (if r.app == a then {r.id} else {}) {
      assert UnderBoot(s', a) == UnderBoot(s, a);
    }
    assert Made(s'.flights[p]) == Made(f) + {r.id};
  }

  lemma MakerInQuota(s: Fleet, s': Fleet, f: Flight, g: Flight, id: Id, most: nat)
    requires InQuota(s, f, most) && f.pc.Placing? && g.pc.Placing? && g.pc.n == f.pc.n + 1 && g.app == f.app
    requires Shortfall(g) == Shortfall(f) && f.pc.n < Shortfall(f)
    requires KnownTo(g) == KnownTo(f) + {id} && Held(s', f.app.id) <= Held(s, f.app.id) + {id}
    ensures InQuota(s', g, most) && |KnownTo(g) * Held(s', f.app.id)| <= most
  {
    hide Held;
    hide KnownTo;
    hide Shortfall;
    var (k, k') := (KnownTo(f) * Held(s, f.app.id), KnownTo(g) * Held(s', f.app.id));
    TwoCover(k', k, {id});
  }

  /** One row more, known to its maker, who now knows of at most most held rows; the other passes are
      as they were. */
  ghost predicate AddsRow(s: Fleet, s': Fleet, p: nat, id: Id, a: Id, most: nat) {
    && p in s.flights && s.flights[p].app.id == a && s'.flights.Keys == s.flights.Keys && s'.flights[p].app.id == a
    && (forall q :: q in s.flights && q != p ==> s'.flights[q] == s.flights[q])
    && Held(s', a) <= Held(s, a) + {id}
    && KnownTo(s'.flights[p]) == KnownTo(s.flights[p]) + {id}
    && |KnownTo(s'.flights[p]) * Held(s', a)| <= most
  }

  lemma UnseenAfterCreate(s: Fleet, s': Fleet, p: nat, id: Id, a: Id, most: nat, ps: set<nat>)
    requires AddsRow(s, s', p, id, a, most) && ps <= InFlight(s, a) && p !in ps
    ensures |Unseen(s', a, ps)| <= most + |Unseen(s, a, ps + {p})|
  {
    hide Held;
    hide KnownTo;
    forall x | x in Unseen(s', a, ps) ensures x in KnownTo(s'.flights[p]) * Held(s', a) || x in Unseen(s, a, ps + {p}) {
      forall q | q in ps && q in s.flights ensures x !in KnownTo(s.flights[q]) {
        assert s'.flights[q] == s.flights[q];
      }
    }
    TwoCover(Unseen(s', a, ps), KnownTo(s'.flights[p]) * Held(s', a), Unseen(s, a, ps + {p}));
  }

  lemma UnseenWithMaker(s: Fleet, s': Fleet, p: nat, id: Id, a: Id, most: nat, ps: set<nat>)
    requires AddsRow(s, s', p, id, a, most) && ps <= InFlight(s, a) && p in ps
    ensures |Unseen(s', a, ps)| <= |Unseen(s, a, ps)|
  {
    hide Held;
    hide KnownTo;
    forall x | x in Unseen(s', a, ps) ensures x in Unseen(s, a, ps) {
      assert x !in KnownTo(s'.flights[p]);
      forall q | q in ps && q in s.flights ensures x !in KnownTo(s.flights[q]) {
        assert q != p ==> s'.flights[q] == s.flights[q];
      }
    }
    SubsetSize(Unseen(s', a, ps), Unseen(s, a, ps));
  }

  lemma SameInFlight(s: Fleet, s': Fleet, p: nat, id: Id, a: Id, most: nat)
    requires AddsRow(s, s', p, id, a, most)
    ensures InFlight(s', a) == InFlight(s, a) && p in InFlight(s, a)
  {
    hide Held;
    hide KnownTo;
  }

  ghost predicate Within(s: Fleet, a: Id, start: nat, c: nat, most: nat, h: nat, ps: set<nat>) {
    |Unseen(s, a, ps)| <= Allowance(start, c, most, h, |ps|)
  }

  lemma BoundedAt(s: Fleet, a: Id, start: nat, c: nat, most: nat, h: nat, ps: set<nat>)
    requires Bounded(s, a, start, c, most, h) && ps <= InFlight(s, a)
    ensures Within(s, a, start, c, most, h, ps)
  {
    hide Unseen;
    hide Allowance;
    hide InFlight;
  }

  lemma CreateKeepsWithin(s: Fleet, s': Fleet, p: nat, id: Id, a: Id, start: nat, c: nat, most: nat, h: nat, ps: set<nat>)
    requires AddsRow(s, s', p, id, a, most) && Bounded(s, a, start, c, most, h) && |InFlight(s, a)| <= c && ps <= InFlight(s, a)
    ensures Within(s', a, start, c, most, h, ps)
  {
    hide Bounded;
    hide Unseen;
    hide Allowance;
    hide InFlight;
    hide AddsRow;
    SameInFlight(s, s', p, id, a, most);
    BoundedAt(s, a, start, c, most, h, ps);
    if p in ps {
      UnseenWithMaker(s, s', p, id, a, most, ps);
    } else {
      var more := ps + {p};
      assert |more| == |ps| + 1;
      SubsetSize(more, InFlight(s, a));
      AllowanceSteps(start, c, most, h, |ps|);
      BoundedAt(s, a, start, c, most, h, more);
      UnseenAfterCreate(s, s', p, id, a, most, ps);
    }
  }

  lemma CreateKeepsBound(s: Fleet, s': Fleet, p: nat, id: Id, a: Id, start: nat, c: nat, most: nat, h: nat)
    requires AddsRow(s, s', p, id, a, most) && Bounded(s, a, start, c, most, h) && |InFlight(s, a)| <= c
    ensures Bounded(s', a, start, c, most, h)
  {
    hide AddsRow;
    hide InFlight;
    hide Unseen;
    hide Allowance;
    SameInFlight(s, s', p, id, a, most);
    forall ps | ps <= InFlight(s', a) ensures |Unseen(s', a, ps)| <= Allowance(start, c, most, h, |ps|) {
      CreateKeepsWithin(s, s', p, id, a, start, c, most, h, ps);
    }
  }

  /** Another pass of the app does not know of the new row, and is not affected. */
  lemma OthersInQuota(s: Fleet, s': Fleet, f: Flight, id: Id, most: nat)
    requires InQuota(s, f, most) && id !in KnownTo(f) && Held(s', f.app.id) <= Held(s, f.app.id) + {id}
    ensures InQuota(s', f, most)
  {
    hide Held;
    hide KnownTo;
    var (k, k') := (KnownTo(f) * Held(s, f.app.id), KnownTo(f) * Held(s', f.app.id));
    assert k' <= k;
    SubsetSize(k', k);
  }

  // ---------------------------------------------------------------- the other calls of a pass

  lemma RemovalShrinks(rows: Rows, id: Id, a: Id)
    ensures OccIds(rows - {id}, a) <= OccIds(rows, a)
  {}

  lemma DeathShrinks(rows: Rows, r: Replica, a: Id)
    requires r.state == Dead
    ensures OccIds(rows[r.id := r], a) <= OccIds(rows, a)
  {}

  lemma QuietCallShrinks(s: Fleet, p: nat, a: Id)
    requires p in s.flights && !Creates(s.rows, s.flights[p])
    ensures Held(Stepped(s, p), a) <= Held(s, a) && OldPasses(s, Stepped(s, p))
  {
    var (f, s') := (s.flights[p], Stepped(s, p));
    CallRows(s, f, a);
    assert UnderBoot(s', a) == UnderBoot(s, a);
    SamePassOn(s.rows, f);
  }

  lemma CallRows(s: Fleet, f: Flight, a: Id)
    requires !Creates(s.rows, f)
    ensures OccIds(Call(s.rows, f).0, a) <= OccIds(s.rows, a)
  {
    hide OccIds;
    hide Places;
    if FindsSick(f) {
      ProbeWrites(s.rows, f);
      DeathShrinks(s.rows, f.listed[f.pc.i].(state := Dead), a);
    } else if !f.pc.Placing? {
      CallWrites(s, f);
      hide Call;
      if id :| Call(s.rows, f).0 == s.rows - {id} {
        RemovalShrinks(s.rows, id, a);
      }
    }
  }

  lemma SamePassOn(rows: Rows, f: Flight)
    requires !Creates(rows, f)
    ensures Call(rows, f).1.Some? ==> SamePass(f, f.(pc := Call(rows, f).1.value))
    ensures forall g :: SamePass(g, g)
  {
    hide Shown;
    hide Places;
    if Call(rows, f).1.Some? {
      var g := f.(pc := Call(rows, f).1.value);
      MovesOn(rows, f);
      assert Used(f) == 0 && Used(g) == 0;
      assert Made(f) == {} && Made(g) == {};
    }
  }

  // ---------------------------------------------------------------- the decision to place

  lemma GoneIsNotHeld(s: Fleet, a: Id, id: Id)
    requires Gone(s, id)
    ensures id !in Held(s, a)
  {}

  lemma SickIsNotHeld(s: Fleet, f: Flight)
    requires FlightOk(s, f) && Checked(f) == |f.listed|
    ensures Held(s, f.app.id) !! Sick(f.host, f.env, f.listed)
  {
    hide Held;
    hide Gone;
    hide Grown;
    forall id | id in Sick(f.host, f.env, f.listed) ensures id !in Held(s, f.app.id) {
      var r :| r in f.listed && Probed(f.host, r) && ProbeOf(f.env, r.id) == Unhealthy && r.id == id;
      var i :| 0 <= i < |f.listed| && f.listed[i] == r;
      assert Sickly(f, f.listed[i]);
      GoneIsNotHeld(s, f.app.id, id);
    }
  }

  lemma DecideInQuota(s: Fleet, f: Flight, most: nat)
    requires FlightOk(s, f) && Checked(f) == |f.listed| && Wants(f, most) && Decide(f) == Some(Placing(0))
    ensures InQuota(s, f.(pc := Placing(0)), most)
  {
    hide Held;
    hide Sick;
    hide Unrecorded;
    hide Shown;
    hide LocalCopies;
    hide Occupants;
    hide CleanupActions;
    hide FirstFailed;
    SickIsNotHeld(s, f);
    assert DistinctIds(f.listed);
    SeenCount(f.host, f.env, f.listed);
    hide FlightOk;
    SameDecision(f, Placing(0));
    var g := f.(pc := Placing(0));
    assert Made(g) == {};
    assert KnownTo(g) == Shown(f.listed);
    assert KnownTo(g) * Held(s, f.app.id) == Held(s, f.app.id) * Shown(f.listed);
    KeptOfShown(Held(s, f.app.id), Shown(f.listed), Sick(f.host, f.env, f.listed));
  }

  /** A call that creates nothing leaves every pass of the app in its quota. */
  lemma QuietCallKeepsQuotas(s: Fleet, p: nat, a: Id, most: nat)
    requires Inv(s) && p in s.flights && !Creates(s.rows, s.flights[p]) && FlightsIn(s, a, most)
    ensures FlightsIn(Stepped(s, p), a, most)
  {
    hide Inv;
    hide Held;
    hide KnownTo;
    hide Wants;
    hide Call;
    hide InQuota;
    hide Creates;
    var (f, s') := (s.flights[p], Stepped(s, p));
    QuietCallShrinks(s, p, a);
    forall q | q in s'.flights && s'.flights[q].app.id == a ensures InQuota(s', s'.flights[q], most) && Wants(s'.flights[q], most) {
      if q != p {
        QuotaShrinks(s, s', s.flights[q], most);
      } else {
        WantsSame(f, s'.flights[p].pc, most);
        MoverInQuota(s, p, most);
      }
    }
  }

  lemma MoverInQuota(s: Fleet, p: nat, most: nat)
    requires Inv(s) && p in s.flights && !Creates(s.rows, s.flights[p]) && Wants(s.flights[p], most)
    ensures p in Stepped(s, p).flights ==> InQuota(Stepped(s, p), Stepped(s, p).flights[p], most)
  {
    hide Inv;
    hide Held;
    hide KnownTo;
    hide Wants;
    hide Call;
    hide Creates;
    PlacingIsNew(s.rows, s.flights[p]);
    if p in Stepped(s, p).flights && Stepped(s, p).flights[p].pc.Placing? {
      NewPlacer(s, p, most);
    }
  }

  lemma WantsSame(f: Flight, pc: Pc, most: nat)
    ensures Wants(f.(pc := pc), most) <==> Wants(f, most)
  {
    hide Unrecorded;
  }

  /** A pass begins to place at the end of its health loop, by decision. */
  lemma PlacingIsNew(rows: Rows, f: Flight)
    requires !Creates(rows, f)
    ensures Call(rows, f).1.Some? && Call(rows, f).1.value.Placing? ==>
              f.pc.Probing? && f.pc.i >= |f.listed| && Call(rows, f) == (rows, Some(Placing(0))) && Decide(f) == Some(Placing(0))
  {
    hide OccupantsOf;
    hide FirstFailed;
    hide DrainOf;
    hide DeadStep;
  }

  lemma NewPlacer(s: Fleet, p: nat, most: nat)
    requires Inv(s) && p in s.flights && Wants(s.flights[p], most)
    requires s.flights[p].pc.Probing? && s.flights[p].pc.i >= |s.flights[p].listed|
    requires Call(s.rows, s.flights[p]) == (s.rows, Some(Placing(0))) && Decide(s.flights[p]) == Some(Placing(0))
    ensures InQuota(Stepped(s, p), s.flights[p].(pc := Placing(0)), most)
  {
    hide Inv;
    hide FlightOk;
    hide Decide;
    hide Wants;
    hide InQuota;
    hide Call;
    var f := s.flights[p];
    FlightFits(s, p);
    DecideInQuota(s, f, most);
    SameTableSameHeld(s, Stepped(s, p), f.app.id);
    QuotaShrinks(s, Stepped(s, p), f.(pc := Placing(0)), most);
  }

  lemma SameTableSameHeld(s: Fleet, s': Fleet, a: Id)
    requires s'.rows == s.rows && s'.holder == s.holder
    ensures Held(s', a) == Held(s, a)
  {}

  lemma CreateStep(s: Fleet, p: nat, a: Id, start: nat, c: nat, most: nat, h: nat)
    requires Inv(s) && p in s.flights && Creates(s.rows, s.flights[p]) && s.flights[p].app.id == a
    requires Bounded(s, a, start, c, most, h) && FlightsIn(s, a, most) && |InFlight(s, a)| <= c
    ensures Bounded(Stepped(s, p), a, start, c, most, h) && FlightsIn(Stepped(s, p), a, most)
  {
    hide Inv;
    hide FlightOk;
    hide Bounded;
    hide Stepped;
    hide InFlight;
    hide Held;
    hide KnownTo;
    hide InQuota;
    hide Wants;
    hide Shortfall;
    hide AddsRow;
    hide Created;
    hide Call;
    var f := s.flights[p];
    var r := NthRow(f, f.pc.n);
    FlightFits(s, p);
    NextIdUnused(s, f);
    CreatedIsStepped(s, p);
    MakerAdds(s, p, a, most);
    CreateKeepsBound(s, Created(s, p, r), p, r.id, a, start, c, most, h);
    CreateKeepsQuotas(s, p, r, a, most);
  }

  lemma MakerAdds(s: Fleet, p: nat, a: Id, most: nat)
    requires p in s.flights && Creates(s.rows, s.flights[p]) && s.flights[p].app.id == a && InQuota(s, s.flights[p], most)
    ensures var r := NthRow(s.flights[p], s.flights[p].pc.n);
            var s' := Created(s, p, r);
            && AddsRow(s, s', p, r.id, a, most) && InQuota(s', s'.flights[p], most)
            && Held(s', a) <= Held(s, a) + {r.id}
  {
    hide Held;
    hide KnownTo;
    hide InQuota;
    hide Call;
    var f := s.flights[p];
    var r := NthRow(f, f.pc.n);
    var s' := Created(s, p, r);
    CreatedFacts(s, p, r);
    assert f.pc.n < Shortfall(f);
    hide Shortfall;
    MakerInQuota(s, s', f, s'.flights[p], r.id, most);
  }

  lemma CreateKeepsQuotas(s: Fleet, p: nat, r: Replica, a: Id, most: nat)
    requires Inv(s) && p in s.flights && FlightsIn(s, a, most) && r.id !in s.stamps
    requires Held(Created(s, p, r), a) <= Held(s, a) + {r.id}
    requires s.flights[p].app.id == a ==> InQuota(Created(s, p, r), Created(s, p, r).flights[p], most)
    ensures FlightsIn(Created(s, p, r), a, most)
  {
    hide Held;
    hide KnownTo;
    hide InQuota;
    hide Wants;
    var s' := Created(s, p, r);
    forall q | q in s'.flights && s'.flights[q].app.id == a ensures InQuota(s', s'.flights[q], most) && Wants(s'.flights[q], most) {
      if q == p {
        WantsSame(s.flights[p], s'.flights[p].pc, most);
      } else {
        var g := s.flights[q];
        assert FlightOk(s, g);
        assert r.id !in KnownTo(g) by {
          if r.id in KnownTo(g) {
            KnownIsStamped(s, g, r.id);
          }
        }
        OthersInQuota(s, s', g, r.id, most);
      }
    }
  }

  // ---------------------------------------------------------------- boots and the rest

  lemma HolderShrinks(s: Fleet, s': Fleet, a: Id)
    requires s'.rows == s.rows
    requires forall h :: h in s'.holder && s'.holder[h].boot.Some? ==> h in s.holder && s.holder[h].boot == s'.holder[h].boot
    ensures Held(s', a) <= Held(s, a)
  {}

  /** A loaded row is one that counts already. */
  lemma LoadHolds(s: Fleet, m: Move, s': Fleet, a: Id)
    requires Inv(s) && m.Load? && Next(s, m, s')
    ensures Held(s', a) <= Held(s, a)
  {
    hide FlightOk;
    var (h, id) := (m.caller, s.holder[m.caller].todo[0]);
    assert WorkerOk(s, h) && WaitingOk(s, s.holder[h].host, id);
    if id in s.rows {
      RowStamped(s, id);
    }
    forall x | x in Held(s', a) ensures x in Held(s, a) {
      if x in UnderBoot(s', a) {
        var k :| k in s'.holder && s'.holder[k].boot.Some? && s'.holder[k].boot.value.row.app == a && s'.holder[k].boot.value.row.id == x;
        assert k != h ==> x in UnderBoot(s, a);
      }
    }
  }

  /** A boot writes only a row that was held on its account. */
  lemma WrittenHolds(s: Fleet, h: nat, state: ReplicaState, b: Option<Boot>, s': Fleet, a: Id)
    requires InBoot(s, h) && s'.rows == Written(s, h, state, b).rows && s'.holder == Written(s, h, state, b).holder
    requires b.Some? ==> b.value.row.id == s.holder[h].boot.value.row.id && b.value.row.app == s.holder[h].boot.value.row.app
    ensures Held(s', a) <= Held(s, a)
  {
    var copy := s.holder[h].boot.value.row.(state := state);
    forall x | x in Held(s', a) ensures x in Held(s, a) {
      if x in OccIds(s'.rows, a) {
        assert x == copy.id && copy.app == a ==> x in UnderBoot(s, a);
      } else {
        var k :| k in s'.holder && s'.holder[k].boot.Some? && s'.holder[k].boot.value.row.app == a && s'.holder[k].boot.value.row.id == x;
        assert s.holder[k].boot.Some? && s.holder[k].boot.value.row.app == a && s.holder[k].boot.value.row.id == x;
      }
    }
  }

  lemma HealthHolds(s: Fleet, m: Move, s': Fleet, a: Id)
    requires m.Health? && Next(s, m, s')
    ensures Held(s', a) <= Held(s, a)
  {
    assert UnderBoot(s', a) == UnderBoot(s, a);
  }

  /** The moves that write no row and give no boot a new row. */
  predicate Holding(m: Move) {
    || m.Abandon? || m.Rescale? || m.Enter? || m.Leave?
    || (m.SaveBooting? && !m.lands) || (m.FinishBoot? && m.end == NotWritten)
  }

  lemma HoldingMove(s: Fleet, m: Move, s': Fleet)
    requires Next(s, m, s') && Holding(m)
    ensures s'.rows == s.rows
    ensures forall h :: h in s'.holder && s'.holder[h].boot.Some? ==> h in s.holder && s.holder[h].boot == s'.holder[h].boot
  {
    hide InBoot;
    hide Lists;
    hide Stepped;
    hide Fresh;
    hide DistinctSeq;
  }

  lemma WritingMove(s: Fleet, m: Move, s': Fleet, a: Id)
    requires Next(s, m, s') && ((m.SaveBooting? && m.lands) || (m.FinishBoot? && m.end != NotWritten))
    ensures Held(s', a) <= Held(s, a)
  {
    hide Lists;
    hide Stepped;
    hide Fresh;
    hide Held;
    var h := m.caller;
    if m.SaveBooting? {
      WrittenHolds(s, h, Booting, Some(Boot(s.holder[h].boot.value.row.(state := Booting), true)), s', a);
    } else {
      WrittenHolds(s, h, EndState(m.end), None, s', a);
    }
  }

  lemma OtherMoveFlights(s: Fleet, m: Move, s': Fleet)
    requires Next(s, m, s') && !m.List? && !m.Step?
    ensures forall p :: p in s'.flights ==> p in s.flights && s'.flights[p] == s.flights[p]
  {
    hide Lists;
    hide Stepped;
    hide Fresh;
    hide DistinctSeq;
  }

  /** Every move but a listing or a pass's own call holds no more than before, and leaves the passes. */
  lemma OtherMoveHolds(s: Fleet, m: Move, s': Fleet, a: Id)
    requires Inv(s) && Next(s, m, s') && !m.List? && !m.Step?
    ensures Held(s', a) <= Held(s, a)
    ensures forall p :: p in s'.flights ==> p in s.flights && s'.flights[p] == s.flights[p]
  {
    hide Inv;
    hide Next;
    hide Held;
    OtherMoveFlights(s, m, s');
    if Holding(m) {
      HoldingMove(s, m, s');
      HolderShrinks(s, s', a);
    } else if m.Load? {
      LoadHolds(s, m, s', a);
    } else if m.Health? {
      HealthHolds(s, m, s', a);
    } else {
      WritingMove(s, m, s', a);
    }
  }

  lemma OtherMoveKeepsBound(s: Fleet, m: Move, s': Fleet, a: Id, start: nat, c: nat, most: nat, h: nat)
    requires Inv(s) && Next(s, m, s') && !m.List? && !m.Step?
    requires Bounded(s, a, start, c, most, h) && FlightsIn(s, a, most)
    ensures Bounded(s', a, start, c, most, h) && FlightsIn(s', a, most)
  {
    hide Inv;
    hide Next;
    hide Bounded;
    hide InQuota;
    hide Wants;
    hide Held;
    hide KnownTo;
    OtherMoveHolds(s, m, s', a);
    assert OldPasses(s, s');
    ShrinkKeepsBound(s, s', a, start, c, most, h);
    forall p | p in s'.flights && s'.flights[p].app.id == a ensures InQuota(s', s'.flights[p], most) {
      QuotaShrinks(s, s', s.flights[p], most);
    }
  }

  lemma ListMoveKeepsBound(s: Fleet, m: Move, s': Fleet, a: Id, start: nat, c: nat, most: nat, h: nat)
    requires Inv(s) && m.List? && Next(s, m, s') && Bounded(s, a, start, c, most, h) && FlightsIn(s, a, most)
    requires |InFlight(s', a)| <= c && |Stranded(s, a)| <= h
    requires m.app == a ==> Wants(s'.flights[m.p], most)
    ensures Bounded(s', a, start, c, most, h) && FlightsIn(s', a, most)
  {
    hide Inv;
    hide Bounded;
    hide Wants;
    hide Held;
    hide KnownTo;
    hide Stranded;
    hide InFlight;
    hide Lists;
    hide Fresh;
    assert WellKeyed(s.rows) by { TableKeyed(s); }
    ListKeepsBound(s, m, s', a, start, c, most, h);
    SameTableSameHeld(s, s', a);
    forall p | p in s'.flights && s'.flights[p].app.id == a ensures InQuota(s', s'.flights[p], most) && Wants(s'.flights[p], most) {
      if p != m.p {
        QuotaShrinks(s, s', s.flights[p], most);
      }
    }
  }

  lemma TableKeyed(s: Fleet)
    requires Inv(s)
    ensures WellKeyed(s.rows)
  {
    hide FlightOk;
    hide WorkerOk;
  }

  lemma StepMoveKeepsBound(s: Fleet, p: nat, a: Id, start: nat, c: nat, most: nat, h: nat)
    requires Inv(s) && p in s.flights && Bounded(s, a, start, c, most, h) && FlightsIn(s, a, most) && |InFlight(s, a)| <= c
    ensures Bounded(Stepped(s, p), a, start, c, most, h) && FlightsIn(Stepped(s, p), a, most)
  {
    hide Inv;
    hide Bounded;
    hide FlightsIn;
    hide InFlight;
    hide Stepped;
    hide Creates;
    hide Held;
    if !Creates(s.rows, s.flights[p]) {
      QuietCallShrinks(s, p, a);
      ShrinkKeepsBound(s, Stepped(s, p), a, start, c, most, h);
      QuietCallKeepsQuotas(s, p, a, most);
    } else if s.flights[p].app.id == a {
      CreateStep(s, p, a, start, c, most, h);
    } else {
      ForeignCreate(s, p, a, start, c, most, h);
    }
  }

  lemma ForeignCreate(s: Fleet, p: nat, a: Id, start: nat, c: nat, most: nat, h: nat)
    requires Inv(s) && p in s.flights && Creates(s.rows, s.flights[p]) && s.flights[p].app.id != a
    requires Bounded(s, a, start, c, most, h) && FlightsIn(s, a, most)
    ensures Bounded(Stepped(s, p), a, start, c, most, h) && FlightsIn(Stepped(s, p), a, most)
  {
    hide Inv;
    hide Bounded;
    hide Held;
    hide KnownTo;
    hide InQuota;
    hide Wants;
    hide Stepped;
    hide FlightOk;
    var f := s.flights[p];
    var r := NthRow(f, f.pc.n);
    FlightFits(s, p);
    NextIdUnused(s, f);
    CreatedIsStepped(s, p);
    CreatedFacts(s, p, r);
    var s' := Created(s, p, r);
    assert Held(s', a) <= Held(s, a);
    BoundElsewhere(s, s', p, a, start, c, most, h);
    forall q | q in s'.flights && s'.flights[q].app.id == a ensures InQuota(s', s'.flights[q], most) && Wants(s'.flights[q], most) {
      QuotaShrinks(s, s', s.flights[q], most);
    }
  }

  lemma BoundElsewhere(s: Fleet, s': Fleet, p: nat, a: Id, start: nat, c: nat, most: nat, h: nat)
    requires Bounded(s, a, start, c, most, h) && Held(s', a) <= Held(s, a) && p in s.flights && s'.flights.Keys == s.flights.Keys
    requires s.flights[p].app.id != a && s'.flights[p].app.id != a
    requires forall q :: q in s.flights && q != p ==> s'.flights[q] == s.flights[q]
    ensures Bounded(s', a, start, c, most, h)
  {
    hide Allowance;
    hide Held;
    hide KnownTo;
    forall ps | ps <= InFlight(s', a) ensures |Unseen(s', a, ps)| <= Allowance(start, c, most, h, |ps|) {
      assert ps <= InFlight(s, a) && p !in ps;
      forall id | id in Unseen(s', a, ps) ensures id in Unseen(s, a, ps) {
        forall q | q in ps && q in s.flights ensures id !in KnownTo(s.flights[q]) {
          assert s'.flights[q] == s.flights[q];
        }
      }
      SubsetSize(Unseen(s', a, ps), Unseen(s, a, ps));
    }
  }

  /** What a run must grant for this app: at most c passes under way at once, none wanting more than most
      rows, none leaving more than u deaths unrecorded, at most h boots stranded at once. */
  ghost predicate Granted(run: seq<Fleet>, moves: seq<Move>, k: nat, a: Id, c: nat, most: nat, u: nat, h: nat) {
    && k < |run| == |moves| + 1
    && (forall i :: 0 <= i <= k ==> |InFlight(run[i], a)| <= c && |Stranded(run[i], a)| <= h)
    && (forall i :: 0 <= i < k ==> Modest(run[i], moves[i], a, most, u))
  }

  ghost predicate Modest(s: Fleet, m: Move, a: Id, most: nat, u: nat) {
    m.List? && m.app == a ==>
      && (a in s.desired ==> s.desired[a] <= most)
      && |Unrecorded(m.host, m.env, m.listed)| <= u
  }

  lemma NextKeepsBound(s: Fleet, m: Move, s': Fleet, a: Id, start: nat, c: nat, most: nat, u: nat, h: nat)
    requires Inv(s) && Next(s, m, s') && Bounded(s, a, start, c, most + u, h) && FlightsIn(s, a, most + u)
    requires |InFlight(s, a)| <= c && |InFlight(s', a)| <= c && |Stranded(s, a)| <= h && Modest(s, m, a, most, u)
    ensures Bounded(s', a, start, c, most + u, h) && FlightsIn(s', a, most + u)
  {
    hide Inv;
    hide Bounded;
    hide FlightsIn;
    hide InFlight;
    hide Stranded;
    hide Stepped;
    hide Lists;
    hide Fresh;
    if m.List? {
      ListMoveKeepsBound(s, m, s', a, start, c, most + u, h);
    } else if m.Step? {
      StepMoveKeepsBound(s, m.p, a, start, c, most + u, h);
    } else {
      OtherMoveKeepsBound(s, m, s', a, start, c, most + u, h);
    }
  }

  lemma BoundedAtRest(s: Fleet, a: Id, start: nat, c: nat, most: nat, h: nat)
    requires InFlight(s, a) == {} && |Held(s, a)| <= start
    ensures Bounded(s, a, start, c, most, h) && FlightsIn(s, a, most)
  {
    hide Held;
    assert Unseen(s, a, {}) == Held(s, a);
    forall p | p in s.flights ensures s.flights[p].app.id != a {
      assert s.flights[p].app.id == a ==> p in InFlight(s, a);
    }
  }

  lemma {:induction false} ContinuesBounded(run: seq<Fleet>, moves: seq<Move>, k: nat, a: Id, c: nat, most: nat, u: nat, h: nat)
    requires Continues(run, moves) && Inv(run[0]) && InFlight(run[0], a) == {} && Granted(run, moves, k, a, c, most, u, h)
    ensures Bounded(run[k], a, |Held(run[0], a)|, c, most + u, h) && FlightsIn(run[k], a, most + u)
  {
    hide Next;
    hide Inv;
    hide Held;
    hide Stranded;
    hide Modest;
    hide Bounded;
    hide FlightsIn;
    var start := |Held(run[0], a)|;
    if k == 0 {
      BoundedAtRest(run[0], a, start, c, most + u, h);
    } else {
      hide InFlight;
      ContinuesBounded(run, moves, k - 1, a, c, most, u, h);
      ContinuesKeepsInv(run, moves, k - 1);
      assert Next(run[k - 1], moves[k - 1], run[k]);
      NextKeepsBound(run[k - 1], moves[k - 1], run[k], a, start, c, most, u, h);
    }
  }

  /** From any state of the fleet with no pass of the app under way: the rows that count, or will when
      their boot writes, never exceed the larger of those held at the start and c times the largest
      desired count plus u, and h more. */
  lemma HeldOverRuns(run: seq<Fleet>, moves: seq<Move>, k: nat, a: Id, c: nat, most: nat, u: nat, h: nat)
    requires Continues(run, moves) && Inv(run[0]) && InFlight(run[0], a) == {} && Granted(run, moves, k, a, c, most, u, h)
    ensures |OccIds(run[k].rows, a)| <= |Held(run[k], a)| <= Max(|Held(run[0], a)|, c * (most + u) + h)
  {
    hide Next;
    hide Inv;
    hide InFlight;
    ContinuesBounded(run, moves, k, a, c, most, u, h);
    hide Continues;
    hide Granted;
    assert Unseen(run[k], a, {}) == Held(run[k], a);
    assert Within(run[k], a, |Held(run[0], a)|, c, most + u, h, {}) by {
      BoundedAt(run[k], a, |Held(run[0], a)|, c, most + u, h, {});
    }
    SubsetSize(OccIds(run[k].rows, a), Held(run[k], a));
  }

  /** Capacity over every interleaving of single store calls: with at most c passes of an app under way
      at once, at most u deaths unrecorded per pass and at most h rows removed from the table while their
      boot was under way, its occupying rows never exceed the larger of their initial count and
      c * (largest desired + u) + h. */
  lemma CapacityOverRuns(run: seq<Fleet>, moves: seq<Move>, k: nat, a: Id, c: nat, most: nat, u: nat, h: nat)
    requires IsRun(run, moves) && Granted(run, moves, k, a, c, most, u, h)
    ensures |OccIds(run[k].rows, a)| <= Max(|OccIds(run[0].rows, a)|, c * (most + u) + h)
  {
    hide Next;
    hide Granted;
    QuietInv(run[0]);
    assert UnderBoot(run[0], a) == {} && Held(run[0], a) == OccIds(run[0].rows, a);
    assert InFlight(run[0], a) == {};
    hide Inv;
    HeldOverRuns(run, moves, k, a, c, most, u, h);
  }
}
