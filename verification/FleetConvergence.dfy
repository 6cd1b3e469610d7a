/** Repeated rounds of passes converge (internal/usecase/fleet_orchestrator.go:630-672, 712-802). */
module FleetConvergence {
  import opened Text
  import opened FleetTypes
  import opened SurplusOrder
  import opened FleetPass
  import opened FleetPassFacts
  import opened FleetCapacity

  ghost predicate AllHealthy(env: Env) {
    forall id :: id in env.probes ==> env.probes[id] == Healthy
  }

  ghost function DeadSet(rows: Rows, app: Id): set<Id> {
    set id | id in rows && rows[id].app == app && rows[id].state == Dead
  }

  ghost function OwnedBy(rows: Rows, ids: set<Id>, self: Id): set<Id> {
    set id | id in ids && id in rows && Owns(self, rows[id])
  }

  lemma NoneSick(self: Id, app: Id, env: Env, rows: Rows)
    requires AllHealthy(env)
    ensures SickSet(self, app, env, rows) == {} && UnsavedSet(self, app, env, rows) == {}
  {}

  lemma HealthyCleaned(self: Id, app: Id, env: Env, rows: Rows)
    requires WellKeyed(rows) && env.stuck == {} && AllHealthy(env)
    ensures var cleaned := Cleaned(self, app, env, rows);
            && (forall id :: id in cleaned <==>
                  id in rows && !(rows[id].app == app && rows[id].state == Dead && Owns(self, rows[id])))
            && (forall id :: id in cleaned ==> cleaned[id] == rows[id])
  {}

  lemma HealthyCleanup(self: Id, app: App, env: Env, rows: Rows, listed: seq<Replica>)
    requires Ready(app, rows, listed) && env.stuck == {} && AllHealthy(env)
    ensures var cleaned := Cleaned(self, app.id, env, rows);
            && OccIds(cleaned, app.id) == OccIds(rows, app.id)
            && Seen(self, env, listed) == |OccIds(rows, app.id)|
            && UnsavedSet(self, app.id, env, rows) == {}
            && SeenIds(self, app.id, env, rows) == OccIds(rows, app.id)
            && DeadSet(cleaned, app.id) == DeadSet(rows, app.id) - OwnedBy(rows, DeadSet(rows, app.id), self)
            && (forall id :: id in cleaned ==> id in rows && cleaned[id] == rows[id])
  {
    hide Cleaned;
    hide LocalCopies;
    hide SickSet;
    hide UnsavedSet;
    hide Lists;
    HealthyCleaned(self, app.id, env, rows);
    OccupantsCount(self, app.id, env, rows, listed);
    NoneSick(self, app.id, env, rows);
  }

  /** One cooperative, healthy pass: the dead rows of this host go; a shortfall is filled exactly;
      a surplus shrinks to desired or to the point where this host has nothing left to drain. */
  lemma HealthyPass(self: Id, app: App, env: Env, rows: Rows, listed: seq<Replica>)
    requires Ready(app, rows, listed) && Cooperative(app, env, rows) && AllHealthy(env)
    ensures var out := Pass(self, app, env, rows, listed);
            var before, after := OccIds(rows, app.id), OccIds(out.rows, app.id);
            && WellKeyed(out.rows)
            && DeadSet(out.rows, app.id) == DeadSet(rows, app.id) - OwnedBy(rows, DeadSet(rows, app.id), self)
            && (forall id :: id in out.rows && id in rows ==> out.rows[id] == rows[id])
            && (|before| <= app.desired ==> |after| == app.desired)
            && (|before| > app.desired ==>
                  && out.rows.Keys <= rows.Keys && after <= before
                  && (|after| == app.desired || (|after| > app.desired && OwnedBy(rows, after, self) == {})))
  {
    hide Cleaned;
    hide DrainList;
    hide LocalCopies;
    hide CleanupActions;
    var cleaned := Cleaned(self, app.id, env, rows);
    HealthyCleanup(self, app, env, rows, listed);
    CleanedCount(self, app, env, rows, listed);
    NothingFails(env, CleanupActions(self, env, listed));
    assert cleaned.Keys <= rows.Keys;
    if |OccIds(rows, app.id)| < app.desired {
      HealthyShortfall(self, app, env, rows, cleaned, app.desired - |OccIds(rows, app.id)|);
    } else if |OccIds(rows, app.id)| > app.desired {
      HealthySurplus(self, app, env, rows, listed);
    }
  }

  lemma HealthyShortfall(self: Id, app: App, env: Env, rows: Rows, cleaned: Rows, shortfall: nat)
    requires WellKeyed(cleaned) && Cooperative(app, env, rows) && shortfall <= app.desired
    requires forall id :: id in cleaned ==> id in rows && cleaned[id] == rows[id]
    ensures var out := Place(app, env, cleaned, 0, shortfall).rows;
            && DeadSet(out, app.id) == DeadSet(cleaned, app.id)
            && (forall id :: id in out && id in rows ==> out[id] == rows[id])
            && |OccIds(out, app.id)| == |OccIds(cleaned, app.id)| + shortfall
            && WellKeyed(out)
  {
    hide OccIds;
    PlaceFacts(app, env, cleaned, 0, shortfall);
    PlaceAll(app, env, cleaned, 0, shortfall);
    PlaceUsesFreshIds(app, env, cleaned, 0, shortfall);
    var out := Place(app, env, cleaned, 0, shortfall).rows;
    forall id | id in out && id in rows ensures out[id] == rows[id] {
      assert id !in env.freshIds;
      assert id in cleaned;
    }
  }

  lemma HealthySurplus(self: Id, app: App, env: Env, rows: Rows, listed: seq<Replica>)
    requires Ready(app, rows, listed) && env.stuck == {} && AllHealthy(env)
    requires |OccIds(rows, app.id)| > app.desired && Seen(self, env, listed) == |OccIds(rows, app.id)|
    ensures var cleaned := Cleaned(self, app.id, env, rows);
            var drain := DrainList(self, Occupants(LocalCopies(self, env, listed)), app.desired);
            var after := OccIds(Drained(env, cleaned, drain), app.id);
            && after <= OccIds(rows, app.id)
            && DeadSet(Drained(env, cleaned, drain), app.id) == DeadSet(cleaned, app.id)
            && (|after| == app.desired || (|after| > app.desired && OwnedBy(rows, after, self) == {}))
  {
    hide LocalCopies;
    hide DrainList;
    hide Cleaned;
    hide SeenIds;
    hide Lists;
    HealthyCleanup(self, app, env, rows, listed);
    OccupantsCount(self, app.id, env, rows, listed);
    var occupants := Occupants(LocalCopies(self, env, listed));
    DrainListFacts(self, occupants, app.desired);
    DrainCount(self, app, env, rows, listed);
    DrainRemoves(self, app, env, rows, Cleaned(self, app.id, env, rows), occupants,
                 DrainList(self, occupants, app.desired));
  }

  lemma DrainRemoves(self: Id, app: App, env: Env, rows: Rows, cleaned: Rows, occupants: seq<Replica>, drain: seq<Id>)
    requires env.stuck == {} && |occupants| > app.desired
    requires forall id :: id in cleaned ==> id in rows && cleaned[id] == rows[id]
    requires OccIds(cleaned, app.id) == OccIds(rows, app.id) && |occupants| == |OccIds(rows, app.id)|
    requires forall id :: id in OccIds(rows, app.id) ==> rows[id] in occupants && rows[id].id == id
    requires forall id :: id in drain ==> exists r :: r in occupants && Owns(self, r) && r.id == id
    requires forall r :: r in occupants ==> r.id in OccIds(rows, app.id)
    requires |drain| == Min(|occupants| - app.desired, |Local(self, occupants)|)
    requires |drain| == |Local(self, occupants)| ==> forall r :: r in occupants && Owns(self, r) ==> r.id in drain
    requires |OccIds(Drained(env, cleaned, drain), app.id)| == |OccIds(cleaned, app.id)| - |drain|
    ensures var after := OccIds(Drained(env, cleaned, drain), app.id);
            && after <= OccIds(rows, app.id)
            && DeadSet(Drained(env, cleaned, drain), app.id) == DeadSet(cleaned, app.id)
            && (|after| == app.desired || (|after| > app.desired && OwnedBy(rows, after, self) == {}))
  {
    hide Local;
    var after := OccIds(Drained(env, cleaned, drain), app.id);
    if |after| != app.desired {
      forall id | id in after ensures !Owns(self, rows[id]) {
        assert rows[id] in occupants;
      }
    }
  }

  // ---------------------------------------------------------------- rounds

  datatype Turn = Turn(host: Id, env: Env, listed: seq<Replica>)

  /** states[i + 1] is the table after turn i's pass over states[i]. */
  ghost predicate IsRound(app: App, turns: seq<Turn>, states: seq<Rows>) {
    && |states| == |turns| + 1
    && (forall i :: 0 <= i < |turns| ==>
          && Ready(app, states[i], turns[i].listed)
          && Cooperative(app, turns[i].env, states[i]) && AllHealthy(turns[i].env)
          && states[i + 1] == Pass(turns[i].host, app, turns[i].env, states[i], turns[i].listed).rows)
  }

  ghost predicate HasTurn(turns: seq<Turn>, h: Option<Id>, k: int) {
    exists i :: 0 <= i < k && i < |turns| && h == Some(turns[i].host)
  }

  /** Every row of the app is stamped with a host that takes a turn. */
  ghost predicate Covered(app: App, turns: seq<Turn>, rows: Rows) {
    forall id :: id in rows && rows[id].app == app.id ==> HasTurn(turns, rows[id].host, |turns|)
  }

  /** A row from the start of the round whose host has not had one of the first k turns. */
  ghost predicate Awaits(app: App, turns: seq<Turn>, start: Rows, rows: Rows, id: Id, k: nat) {
    && id in start && start[id].app == app.id
    && id in rows && rows[id] == start[id]
    && !HasTurn(turns, rows[id].host, k)
  }

  lemma NoneAwaitsForever(app: App, turns: seq<Turn>, start: Rows, rows: Rows, id: Id)
    requires Covered(app, turns, start)
    ensures !Awaits(app, turns, start, rows, id, |turns|)
  {}

  ghost predicate Midway(app: App, turns: seq<Turn>, start: Rows, rows: Rows, k: nat) {
    && (forall id :: id in DeadSet(rows, app.id) ==> Awaits(app, turns, start, rows, id, k))
    && (k > 0 ==> |OccIds(rows, app.id)| >= app.desired)
    && (|OccIds(rows, app.id)| > app.desired ==>
          forall id :: id in OccIds(rows, app.id) ==> Awaits(app, turns, start, rows, id, k))
  }

  lemma TurnAdvances(app: App, turns: seq<Turn>, start: Rows, rows: Rows, k: nat)
    requires k < |turns| && Midway(app, turns, start, rows, k)
    requires Ready(app, rows, turns[k].listed) && Cooperative(app, turns[k].env, rows) && AllHealthy(turns[k].env)
    ensures Midway(app, turns, start, Pass(turns[k].host, app, turns[k].env, rows, turns[k].listed).rows, k + 1)
  {
    hide Pass;
    var t := turns[k];
    HealthyPass(t.host, app, t.env, rows, t.listed);
    var out := Pass(t.host, app, t.env, rows, t.listed).rows;
    forall id | id in DeadSet(out, app.id) ensures Awaits(app, turns, start, out, id, k + 1) {
      assert id in DeadSet(rows, app.id) && !Owns(t.host, rows[id]);
    }
    if |OccIds(out, app.id)| > app.desired {
      forall id | id in OccIds(out, app.id) ensures Awaits(app, turns, start, out, id, k + 1) {
        assert id in OccIds(rows, app.id) && id !in OwnedBy(rows, OccIds(out, app.id), t.host);
      }
    }
  }

  lemma {:induction false} RoundAdvances(app: App, turns: seq<Turn>, states: seq<Rows>, k: nat)
    requires IsRound(app, turns, states) && k <= |turns|
    ensures Midway(app, turns, states[0], states[k], k)
  {
    if k > 0 {
      RoundAdvances(app, turns, states, k - 1);
      TurnAdvances(app, turns, states[0], states[k - 1], k - 1);
    }
  }

  /** Convergence: with teardowns succeeding, probes healthy, the scheduler answering and the
      volumes (if any) allowing placement, one pass per host of a set that owns every row of the
      app brings the occupying count exactly to desired, with no dead row left. */
  lemma RoundConverges(app: App, turns: seq<Turn>, states: seq<Rows>)
    requires IsRound(app, turns, states) && turns != [] && Covered(app, turns, states[0])
    ensures |OccIds(states[|turns|], app.id)| == app.desired
    ensures DeadSet(states[|turns|], app.id) == {}
  {
    RoundAdvances(app, turns, states, |turns|);
    var last := states[|turns|];
    var (dead, occ) := (DeadSet(last, app.id), OccIds(last, app.id));
    forall id ensures !Awaits(app, turns, states[0], last, id, |turns|) {
      NoneAwaitsForever(app, turns, states[0], last, id);
    }
    assert dead == {};
    assert |occ| > app.desired ==> occ == {};
  }

  /** A converged table is a fixpoint: later passes by any host change nothing, attempt no
      teardown, create nothing and report no error, whatever the scheduler would have said. */
  lemma ConvergedIsStable(self: Id, app: App, env: Env, rows: Rows, listed: seq<Replica>)
    requires Ready(app, rows, listed) && AllHealthy(env)
    requires |OccIds(rows, app.id)| == app.desired && DeadSet(rows, app.id) == {}
    ensures var out := Pass(self, app, env, rows, listed);
            out.rows == rows && out.error.None? && forall a :: a in out.actions ==> a.Check?
  {
    hide LocalCopies;
    hide DrainList;
    hide SickSet;
    hide UnsavedSet;
    hide OccIds;
    hide Cleaned;
    hide Lists;
    OccupantsCount(self, app.id, env, rows, listed);
    NoneSick(self, app.id, env, rows);
    NothingToClean(self, app.id, env, rows);
    NoDeadActions(self, app, rows, listed);
    OnlyChecks(self, env, listed);
  }

  lemma NothingToClean(self: Id, app: Id, env: Env, rows: Rows)
    requires WellKeyed(rows) && AllHealthy(env) && DeadSet(rows, app) == {}
    ensures Cleaned(self, app, env, rows) == rows
  {
    assert forall id :: id in rows && rows[id].app == app && rows[id].state == Dead ==> id in DeadSet(rows, app);
  }

  lemma {:induction false} NoDeadListed(self: Id, listed: seq<Replica>)
    requires forall r :: r in listed ==> r.state != Dead
    ensures DeadActions(self, listed) == []
  {
    if listed != [] {
      assert listed[0] in listed;
      NoDeadListed(self, listed[1..]);
    }
  }

  lemma NoDeadActions(self: Id, app: App, rows: Rows, listed: seq<Replica>)
    requires Lists(rows, app.id, listed) && DeadSet(rows, app.id) == {}
    ensures DeadActions(self, listed) == []
  {
    assert forall r :: r in listed && r.state == Dead ==> r.id in DeadSet(rows, app.id);
    NoDeadListed(self, listed);
  }

  lemma {:induction false} OnlyChecks(self: Id, env: Env, listed: seq<Replica>)
    requires AllHealthy(env)
    ensures FirstFailed(env, ProbeActions(self, env, listed)).None?
    ensures FirstFailed(env, [] + ProbeActions(self, env, listed)).None?
    ensures forall a :: a in ProbeActions(self, env, listed) ==> a.Check?
  {
    if listed != [] {
      OnlyChecks(self, env, listed[1..]);
      var head := ProbeActions(self, env, listed)[..|ProbeActions(self, env, listed)| - |ProbeActions(self, env, listed[1..])|];
      FirstFailedAppend(env, head, ProbeActions(self, env, listed[1..]));
      assert ProbeActions(self, env, listed) == head + ProbeActions(self, env, listed[1..]);
    }
    assert [] + ProbeActions(self, env, listed) == ProbeActions(self, env, listed);
  }
}
