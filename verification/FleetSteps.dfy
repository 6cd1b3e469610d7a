/** A reconcile pass one store call at a time: the listing, each teardown, each recorded death, each
    created row is a step of its own, between which anything may happen
    (internal/usecase/fleet_orchestrator.go:559-821). */
module FleetSteps {
  import opened Text
  import opened FleetTypes
  import opened SurplusOrder
  import opened FleetPass
  import opened FleetPassFacts
  import opened FleetCapacity
  import opened FleetOrchestrator

  /** Where a pass is: in the dead-row loop, in the health loop, between recording a death and the
      teardown it leads to, in the placement loop, in the drain loop. */
  datatype Pc = Cleaning(i: nat) | Probing(i: nat) | Burying(i: nat) | Placing(n: nat) | Shedding(i: nat)

  /** A pass under way: its host, the app as it loaded it, the outside's answers, its listing. */
  datatype Flight = Flight(host: Id, app: App, env: Env, listed: seq<Replica>, pc: Pc)

  function OccupantsOf(f: Flight): seq<Replica> { Occupants(LocalCopies(f.host, f.env, f.listed)) }

  function Shortfall(f: Flight): nat {
    if |OccupantsOf(f)| < f.app.desired then f.app.desired - |OccupantsOf(f)| else 0
  }

  function DrainOf(f: Flight): seq<Id> {
    if |OccupantsOf(f)| > f.app.desired then DrainList(f.host, OccupantsOf(f), f.app.desired) else []
  }

  /** What the pass turns to once it has counted. */
  function Decide(f: Flight): Option<Pc> {
    if |OccupantsOf(f)| < f.app.desired then
      if FirstFailed(f.env, CleanupActions(f.host, f.env, f.listed)).Some? then None
      else if f.env.volumes && (!f.env.placeable || f.env.affinity.AffinityBroken?) then None
      else Some(Placing(0))
    else if |OccupantsOf(f)| > f.app.desired then Some(Shedding(0))
    else None
  }

  /** The placement loop goes through with its n-th row: the scheduler answers, honours the affinity,
      and the insert is accepted. */
  predicate Places(rows: Rows, f: Flight, n: nat) {
    && n < Shortfall(f) && n < |f.env.picks| && f.env.picks[n].Host?
    && (PinOf(f.env).Some? ==> f.env.picks[n].host == PinOf(f.env).value)
    && n < |f.env.freshIds| && f.env.freshIds[n] !in rows && f.env.freshIds[n] !in f.env.refusedCreates
  }

  function NthRow(f: Flight, n: nat): Replica
    requires n < |f.env.picks| && f.env.picks[n].Host? && n < |f.env.freshIds|
  {
    NewRow(f.app, f.env, n, f.env.picks[n].host)
  }

  predicate Sickly(f: Flight, r: Replica) { Probed(f.host, r) && ProbeOf(f.env, r.id) == Unhealthy }

  function TornOut(env: Env, rows: Rows, id: Id): Rows { if id in env.stuck then rows else rows - {id} }

  /** One store call of the pass, and where the pass is then. */
  function Call(rows: Rows, f: Flight): (Rows, Option<Pc>) {
    match f.pc
    case Cleaning(i) =>
      if GivesUp(f.env) then (rows, None)
      else if i >= |f.listed| then (rows, Some(Probing(0)))
      else (DeadStep(f.host, f.env, rows, f.listed[i]), Some(Cleaning(i + 1)))
    case Probing(i) =>
      if i >= |f.listed| then (rows, Decide(f))
      else
        var r := f.listed[i];
        if Sickly(f, r) then (rows[r.id := r.(state := Dead)], Some(Burying(i))) else (rows, Some(Probing(i + 1)))
    case Burying(i) =>
      if i >= |f.listed| then (rows, None) else (TornOut(f.env, rows, f.listed[i].id), Some(Probing(i + 1)))
    case Placing(n) =>
      if Places(rows, f, n) then (rows[f.env.freshIds[n] := NthRow(f, n)], Some(Placing(n + 1))) else (rows, None)
    case Shedding(i) =>
      if i >= |DrainOf(f)| then (rows, None) else (TornOut(f.env, rows, DrainOf(f)[i]), Some(Shedding(i + 1)))
  }

  /** None of this depends on where the pass is. */
  lemma SameDecision(f: Flight, pc: Pc)
    ensures var g := f.(pc := pc);
            OccupantsOf(g) == OccupantsOf(f) && Shortfall(g) == Shortfall(f) && DrainOf(g) == DrainOf(f) && Decide(g) == Decide(f)
  {}

  /** How many calls a pass may still make. */
  function Left(f: Flight): nat {
    var (n, most) := (|f.listed|, Shortfall(f) + |DrainOf(f)| + 2);
    match f.pc
    case Cleaning(i) => (if i < n then n - i else 0) + 2 * n + most + 2
    case Probing(i) => 2 * (if i < n then n - i else 0) + most + 1
    case Burying(i) => 2 * (if i < n then n - i else 0) + most
    case Placing(k) => if k < Shortfall(f) then Shortfall(f) - k + 1 else 1
    case Shedding(k) => if k < |DrainOf(f)| then |DrainOf(f)| - k + 1 else 1
  }

  /** Where a call takes the pass. */
  lemma NextPc(rows: Rows, f: Flight)
    ensures var pc := Call(rows, f).1;
            match f.pc
            case Cleaning(i) => pc == None || pc == Some(if i < |f.listed| then Cleaning(i + 1) else Probing(0))
            case Probing(i) =>
              if i < |f.listed| then pc == Some(Burying(i)) || pc == Some(Probing(i + 1)) else pc == Decide(f)
            case Burying(i) => pc == if i < |f.listed| then Some(Probing(i + 1)) else None
            case Placing(n) => pc == None || (n < Shortfall(f) && pc == Some(Placing(n + 1)))
            case Shedding(i) => pc == if i < |DrainOf(f)| then Some(Shedding(i + 1)) else None
  {
    hide Decide;
    hide OccupantsOf;
    hide Shortfall;
    hide DrainOf;
    hide DeadStep;
    hide TornOut;
    hide Sickly;
  }

  lemma CallEnds(rows: Rows, f: Flight)
    ensures Call(rows, f).1.Some? ==> Left(f.(pc := Call(rows, f).1.value)) < Left(f)
  {
    hide Call;
    hide Decide;
    hide Shortfall;
    hide DrainOf;
    hide OccupantsOf;
    NextPc(rows, f);
    DecisionIsLoop(f);
    if Call(rows, f).1.Some? {
      SameDecision(f, Call(rows, f).1.value);
    }
  }

  lemma DecisionIsLoop(f: Flight)
    ensures Decide(f).Some? ==> Decide(f).value == Placing(0) || Decide(f).value == Shedding(0)
  {}

  /** The pass run to its end with nothing in between. */
  function Alone(rows: Rows, f: Flight): Rows
    decreases Left(f)
  {
    CallEnds(rows, f);
    var (rows', pc) := Call(rows, f);
    if pc.None? then rows' else Alone(rows', f.(pc := pc.value))
  }

  // ---------------------------------------------------------------- alone it is the pass

  lemma AloneStep(rows: Rows, f: Flight)
    ensures var (rows', pc) := Call(rows, f);
            Alone(rows, f) == if pc.None? then rows' else Alone(rows', f.(pc := pc.value))
  {
    hide Call;
  }

  lemma {:induction false} AloneCleans(rows: Rows, f: Flight, i: nat)
    requires i <= |f.listed| && !GivesUp(f.env)
    ensures Alone(AfterDead(f.host, f.env, rows, f.listed, i), f.(pc := Cleaning(i)))
            == Alone(AfterDead(f.host, f.env, rows, f.listed, |f.listed|), f.(pc := Probing(0)))
    decreases |f.listed| - i
  {
    hide Alone;
    hide DeadStep;
    AloneStep(AfterDead(f.host, f.env, rows, f.listed, i), f.(pc := Cleaning(i)));
    if i < |f.listed| {
      AloneCleans(rows, f, i + 1);
    }
  }

  lemma BuryStep(rows: Rows, f: Flight, i: nat)
    requires i < |f.listed|
    ensures Alone(rows, f.(pc := Probing(i))) == Alone(HealthStep(f.host, f.env, rows, f.listed[i]), f.(pc := Probing(i + 1)))
  {
    hide Alone;
    var (r, probing) := (f.listed[i], f.(pc := Probing(i)));
    AloneStep(rows, probing);
    if Sickly(f, r) {
      var mid := rows[r.id := r.(state := Dead)];
      AloneStep(mid, f.(pc := Burying(i)));
      assert r.id !in f.env.stuck ==> mid - {r.id} == rows - {r.id};
    }
  }

  lemma {:induction false} AloneProbes(rows: Rows, f: Flight, i: nat)
    requires i <= |f.listed|
    ensures Alone(AfterHealth(f.host, f.env, rows, f.listed, i), f.(pc := Probing(i)))
            == Alone(AfterHealth(f.host, f.env, rows, f.listed, |f.listed|), f.(pc := Probing(|f.listed|)))
    decreases |f.listed| - i
  {
    hide Alone;
    hide HealthStep;
    if i < |f.listed| {
      BuryStep(AfterHealth(f.host, f.env, rows, f.listed, i), f, i);
      AloneProbes(rows, f, i + 1);
    }
  }

  lemma {:induction false} AlonePlaces(rows: Rows, f: Flight, n: nat)
    requires n <= Shortfall(f)
    ensures Alone(rows, f.(pc := Placing(n))) == Place(f.app, f.env, rows, n, Shortfall(f)).rows
    decreases Shortfall(f) - n
  {
    hide Alone;
    hide OccupantsOf;
    SameDecision(f, Placing(n));
    AloneStep(rows, f.(pc := Placing(n)));
    if Places(rows, f, n) {
      AlonePlaces(rows[f.env.freshIds[n] := NthRow(f, n)], f, n + 1);
    }
  }

  lemma DrainOne(env: Env, rows: Rows, ids: seq<Id>, i: nat)
    requires i < |ids|
    ensures Drained(env, TornOut(env, rows, ids[i]), ids[i + 1..]) == Drained(env, rows, ids[i..])
  {
    assert ids[i..] == [ids[i]] + ids[i + 1..];
    assert forall id :: id in ids[i..] <==> id == ids[i] || id in ids[i + 1..];
  }

  lemma {:induction false} AloneDrains(rows: Rows, f: Flight, i: nat)
    requires i <= |DrainOf(f)|
    ensures Alone(rows, f.(pc := Shedding(i))) == Drained(f.env, rows, DrainOf(f)[i..])
    decreases |DrainOf(f)| - i
  {
    hide Alone;
    hide OccupantsOf;
    hide DrainList;
    SameDecision(f, Shedding(i));
    AloneStep(rows, f.(pc := Shedding(i)));
    if i < |DrainOf(f)| {
      AloneDrains(TornOut(f.env, rows, DrainOf(f)[i]), f, i + 1);
      DrainOne(f.env, rows, DrainOf(f), i);
    } else {
      NothingDrained(f.env, rows, DrainOf(f)[i..]);
    }
  }

  lemma AloneDecides(rows: Rows, f: Flight)
    ensures Alone(rows, f.(pc := Probing(|f.listed|)))
            == Adjust(f.host, f.app, f.env, rows, OccupantsOf(f), CleanupActions(f.host, f.env, f.listed)).rows
  {
    hide Alone;
    hide OccupantsOf;
    hide DrainList;
    hide CleanupActions;
    hide FirstFailed;
    hide Drained;
    hide Place;
    var g := f.(pc := Probing(|f.listed|));
    AloneStep(rows, g);
    SameDecision(f, Probing(|f.listed|));
    if Decide(f) == Some(Placing(0)) {
      AlonePlaces(rows, f, 0);
    } else if Decide(f) == Some(Shedding(0)) {
      AloneDrains(rows, f, 0);
      assert DrainOf(f)[0..] == DrainOf(f);
    }
  }

  /** Call by call with nothing in between, the pass does what the whole function says: so the steps are
      a refinement of it, from any listing, stale or current. */
  lemma AloneIsFinish(rows: Rows, f: Flight)
    requires f.pc == Cleaning(0)
    ensures Alone(rows, f) == Finish(f.host, f.app, f.env, rows, f.listed).rows
  {
    hide Alone;
    hide AfterDead;
    hide AfterHealth;
    hide Adjust;
    if GivesUp(f.env) {
      AloneStep(rows, f);
    } else {
      var (n, mid) := (|f.listed|, AfterDead(f.host, f.env, rows, f.listed, |f.listed|));
      assert AfterDead(f.host, f.env, rows, f.listed, 0) == rows && AfterHealth(f.host, f.env, mid, f.listed, 0) == mid by {
        NoLoop(f, rows, mid);
      }
      AloneCleans(rows, f, 0);
      AloneProbes(mid, f, 0);
      AloneDecides(AfterHealth(f.host, f.env, mid, f.listed, n), f);
    }
  }

  lemma NoLoop(f: Flight, rows: Rows, mid: Rows)
    ensures AfterDead(f.host, f.env, rows, f.listed, 0) == rows && AfterHealth(f.host, f.env, mid, f.listed, 0) == mid
  {}
}
