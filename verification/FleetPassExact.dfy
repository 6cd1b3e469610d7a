/** A reconcile pass said of rows, probes and answers alone: what the cleanup does to each row, how many
    rows a shortfall creates and which error it ends in
    (internal/usecase/fleet_orchestrator.go:559-821). */
module FleetPassExact {
  import opened Text
  import opened FleetTypes
  import opened SurplusOrder
  import opened FleetPass
  import opened FleetPassFacts
  import opened FleetCapacity

  // ---------------------------------------------------------------- cleanup

  /** A row the cleanup tears down: this host's, dead or found dead and recorded so. */
  ghost predicate Buried(self: Id, env: Env, r: Replica) {
    && r.host == Some(self)
    && (r.state == Dead || (r.state == Resident && r.id in env.probes && env.probes[r.id] == Unhealthy))
  }

  /** The cleanup removes exactly the app's buried rows whose teardown works; those whose teardown fails
      stay, as dead rows; every other row, of any app, host or state, stays as it was. */
  lemma CleanupExact(self: Id, app: Id, env: Env, rows: Rows, id: Id)
    requires WellKeyed(rows) && id in rows
    ensures var out := Cleaned(self, app, env, rows);
            && out.Keys <= rows.Keys
            && (id !in out <==> rows[id].app == app && Buried(self, env, rows[id]) && id !in env.stuck)
            && (id in out ==>
                out[id] == if rows[id].app == app && Buried(self, env, rows[id]) then rows[id].(state := Dead) else rows[id])
  {}

  /** The cleanup attempts a teardown of exactly the buried rows it listed, and probes exactly this host's
      residents. */
  lemma CleanupActionsExact(self: Id, env: Env, listed: seq<Replica>, id: Id)
    ensures Stop(id) in CleanupActions(self, env, listed) <==> exists r :: r in listed && r.id == id && Buried(self, env, r)
    ensures Check(id) in CleanupActions(self, env, listed) <==>
            exists r :: r in listed && r.id == id && r.host == Some(self) && r.state == Resident
    ensures Create(id) !in CleanupActions(self, env, listed)
  {
    DeadActionsExact(self, listed, id);
    ProbeStops(self, env, listed, id);
    ProbeChecks(self, env, listed, id);
  }

  lemma {:induction false} DeadActionsExact(self: Id, listed: seq<Replica>, id: Id)
    ensures Stop(id) in DeadActions(self, listed) <==>
            exists r :: r in listed && r.id == id && r.host == Some(self) && r.state == Dead
    ensures Check(id) !in DeadActions(self, listed) && Create(id) !in DeadActions(self, listed)
  {
    if listed != [] {
      DeadActionsExact(self, listed[1..], id);
      assert forall r :: r in listed <==> r == listed[0] || r in listed[1..];
    }
  }

  lemma {:induction false} ProbeStops(self: Id, env: Env, listed: seq<Replica>, id: Id)
    ensures Stop(id) in ProbeActions(self, env, listed) <==>
            exists r :: r in listed && r.id == id && r.host == Some(self) && r.state == Resident
                        && id in env.probes && env.probes[id] == Unhealthy
  {
    if listed != [] {
      ProbeStops(self, env, listed[1..], id);
      assert forall r :: r in listed <==> r == listed[0] || r in listed[1..];
    }
  }

  lemma {:induction false} ProbeChecks(self: Id, env: Env, listed: seq<Replica>, id: Id)
    ensures Check(id) in ProbeActions(self, env, listed) <==>
            exists r :: r in listed && r.id == id && r.host == Some(self) && r.state == Resident
    ensures Create(id) !in ProbeActions(self, env, listed)
  {
    if listed != [] {
      ProbeChecks(self, env, listed[1..], id);
      assert forall r :: r in listed <==> r == listed[0] || r in listed[1..];
    }
  }

  /** A probe, or a teardown right after the probe of the same row. */
  ghost predicate Led(actions: seq<Action>, i: int)
    requires 0 <= i < |actions|
  {
    actions[i].Check? || (actions[i].Stop? && 0 < i && actions[i - 1] == Check(actions[i].id))
  }

  ghost predicate AllLed(actions: seq<Action>) { forall i :: 0 <= i < |actions| ==> Led(actions, i) }

  /** First the dead rows are torn down, then this host's residents are probed, each teardown of a resident
      right after its own probe. */
  lemma CleanupOrder(self: Id, env: Env, listed: seq<Replica>)
    ensures var (dead, probes) := (DeadActions(self, listed), ProbeActions(self, env, listed));
            && CleanupActions(self, env, listed) == dead + probes
            && (forall i :: 0 <= i < |dead| ==> dead[i].Stop?)
            && AllLed(probes)
  {
    hide Led;
    DeadStopsOnly(self, listed);
    ProbesLead(self, env, listed);
  }

  lemma {:induction false} DeadStopsOnly(self: Id, listed: seq<Replica>)
    ensures forall i :: 0 <= i < |DeadActions(self, listed)| ==> DeadActions(self, listed)[i].Stop?
  {
    if listed != [] {
      DeadStopsOnly(self, listed[1..]);
    }
  }

  lemma {:induction false} ProbesLead(self: Id, env: Env, listed: seq<Replica>)
    ensures AllLed(ProbeActions(self, env, listed))
  {
    if listed != [] {
      ProbesLead(self, env, listed[1..]);
      var (r, rest) := (listed[0], ProbeActions(self, env, listed[1..]));
      var head := if !Probed(self, r) then [] else if ProbeOf(env, r.id) == Unhealthy then [Check(r.id), Stop(r.id)] else [Check(r.id)];
      assert AllLed(head) && AllLed(rest);
      LedBehind(head, rest);
    }
  }

  lemma LedBehind(a: seq<Action>, b: seq<Action>)
    requires AllLed(a) && AllLed(b)
    ensures AllLed(a + b)
  {
    forall i | 0 <= i < |a + b| ensures Led(a + b, i) {
      assert if i < |a| then Led(a, i) else Led(b, i - |a|);
    }
  }

  ghost predicate FailsAt(env: Env, actions: seq<Action>, i: int)
    requires 0 <= i < |actions|
  {
    actions[i].Stop? && actions[i].id in env.stuck
  }

  /** The error a pass carries is that of the first teardown that failed, and there is one exactly when a
      teardown failed. */
  lemma {:induction false} FirstFailedExact(env: Env, actions: seq<Action>)
    ensures FirstFailed(env, actions).None? <==> forall i :: 0 <= i < |actions| ==> !FailsAt(env, actions, i)
    ensures FirstFailed(env, actions).Some? ==>
              exists i :: 0 <= i < |actions| && FailsAt(env, actions, i) && FirstFailed(env, actions) == Some(TeardownFailed(actions[i].id))
                          && forall j :: 0 <= j < i ==> !FailsAt(env, actions, j)
  {
    if actions != [] {
      FirstFailedExact(env, actions[1..]);
      assert forall i :: 1 <= i < |actions| ==> actions[i] == actions[1..][i - 1]
                                                && (FailsAt(env, actions, i) <==> FailsAt(env, actions[1..], i - 1));
      if FailsAt(env, actions, 0) {
        assert FirstFailed(env, actions) == Some(TeardownFailed(actions[0].id));
      } else if FirstFailed(env, actions).Some? {
        var i :| 0 <= i < |actions[1..]| && FailsAt(env, actions[1..], i)
                 && FirstFailed(env, actions[1..]) == Some(TeardownFailed(actions[1..][i].id))
                 && forall j :: 0 <= j < i ==> !FailsAt(env, actions[1..], j);
        assert FailsAt(env, actions, i + 1);
        assert forall j :: 0 <= j < i + 1 ==> !FailsAt(env, actions, j);
      }
    }
  }

  // ---------------------------------------------------------------- placement

  ghost predicate Mismatch(env: Env, host: Id) { env.volumes && env.affinity.Pinned? && host != env.affinity.host }

  /** Rows n to k of the placement are in the table, one per answer of the scheduler. */
  ghost predicate Adds(app: App, env: Env, rows: Rows, out: Rows, n: nat, k: nat) {
    && Extends(rows, out) && (n < k ==> k <= |env.picks| && k <= |env.freshIds|)
    && (forall i :: n <= i < k ==>
          && env.picks[i].Host? && !Mismatch(env, env.picks[i].host) && env.freshIds[i] !in rows && env.freshIds[i] !in env.refusedCreates
          && env.freshIds[i] in out
          && out[env.freshIds[i]] == Replica(env.freshIds[i], app.id, Some(env.picks[i].host), Scheduled, env.now))
    && (forall i, j :: n <= i < j < k ==> env.freshIds[i] != env.freshIds[j])
    && (forall id :: id in out ==> id in rows || exists i :: n <= i < k && env.freshIds[i] == id)
  }

  /** Why the placement stops after its k-th row, and the error that goes with it: enough rows; no host to
      be had; a broken scheduler; a host other than the one with the app's data; a refused insert. */
  ghost predicate StopsWith(env: Env, out: Rows, k: nat, shortfall: nat, error: Option<PassError>) {
    if k >= shortfall then error == None
    else if k >= |env.picks| then error == None
    else match env.picks[k]
      case NoneSchedulable => error == None
      case SchedulerBroken => error == Some(SelectHostFailed)
      case Host(host) =>
        if Mismatch(env, host) then error == Some(HostMismatch)
        else error == Some(CreateFailed) && (k >= |env.freshIds| || env.freshIds[k] in out || env.freshIds[k] in env.refusedCreates)
  }

  lemma {:induction false} PlaceExact(app: App, env: Env, rows: Rows, n: nat, shortfall: nat) returns (k: nat)
    requires n <= shortfall
    ensures n <= k <= shortfall
    ensures var out := Place(app, env, rows, n, shortfall);
            && Adds(app, env, rows, out.rows, n, k) && StopsWith(env, out.rows, k, shortfall, out.error)
            && Creates(env, out.actions, n, k)
    decreases shortfall - n
  {
    hide Adds;
    hide StopsWith;
    hide Creates;
    if Goes(env, rows, n, shortfall) {
      var rows' := rows[env.freshIds[n] := NewRow(app, env, n, env.picks[n].host)];
      k := PlaceExact(app, env, rows', n + 1, shortfall);
      var rest := Place(app, env, rows', n + 1, shortfall);
      PlaceGoesOn(app, env, rows, n, shortfall);
      hide Place;
      AddsOne(app, env, rows, rest.rows, n, k);
      CreatesOne(env, rest.actions, n, k);
    } else {
      k := n;
      PlaceStops(app, env, rows, n, shortfall);
    }
  }

  lemma PlaceGoesOn(app: App, env: Env, rows: Rows, n: nat, shortfall: nat)
    requires Goes(env, rows, n, shortfall)
    ensures var rest := Place(app, env, rows[env.freshIds[n] := NewRow(app, env, n, env.picks[n].host)], n + 1, shortfall);
            Place(app, env, rows, n, shortfall) == rest.(actions := [Create(env.freshIds[n])] + rest.actions)
  {}

  lemma PlaceStops(app: App, env: Env, rows: Rows, n: nat, shortfall: nat)
    requires n <= shortfall && !Goes(env, rows, n, shortfall)
    ensures var out := Place(app, env, rows, n, shortfall);
            Adds(app, env, rows, out.rows, n, n) && StopsWith(env, out.rows, n, shortfall, out.error) && Creates(env, out.actions, n, n)
  {}

  ghost predicate Creates(env: Env, actions: seq<Action>, n: nat, k: nat) {
    && n <= k && |actions| == k - n && (n < k ==> k <= |env.freshIds|)
    && forall i :: n <= i < k ==> actions[i - n] == Create(env.freshIds[i])
  }

  lemma CreatesOne(env: Env, actions: seq<Action>, n: nat, k: nat)
    requires n < |env.freshIds| && Creates(env, actions, n + 1, k)
    ensures Creates(env, [Create(env.freshIds[n])] + actions, n, k)
  {
    var all := [Create(env.freshIds[n])] + actions;
    forall i | n < i < k ensures all[i - n] == Create(env.freshIds[i]) {
      assert all[i - n] == actions[i - (n + 1)];
    }
  }

  ghost predicate Goes(env: Env, rows: Rows, n: nat, shortfall: nat) {
    && n < shortfall && n < |env.picks| && env.picks[n].Host? && !Mismatch(env, env.picks[n].host)
    && n < |env.freshIds| && env.freshIds[n] !in rows && env.freshIds[n] !in env.refusedCreates
  }

  lemma AddsOne(app: App, env: Env, rows: Rows, out: Rows, n: nat, k: nat)
    requires Goes(env, rows, n, n + 1) && n < k
    requires Adds(app, env, rows[env.freshIds[n] := NewRow(app, env, n, env.picks[n].host)], out, n + 1, k)
    ensures Adds(app, env, rows, out, n, k)
  {
    var rows' := rows[env.freshIds[n] := NewRow(app, env, n, env.picks[n].host)];
    assert forall id :: id in rows ==> id in rows' && rows'[id] == rows[id];
    assert env.freshIds[n] in rows';
  }

  /** The pass leaves placement for another time: a teardown failed in it, the app's backing file is not
      there, or where its data is cannot be told. */
  ghost predicate HeldBack(self: Id, env: Env, listed: seq<Replica>) {
    FirstFailed(env, CleanupActions(self, env, listed)).Some? || (env.volumes && (!env.placeable || env.affinity.AffinityBroken?))
  }

  /** A pass that counts fewer rows than wanted, after its cleanup: held back, it creates nothing, and
      reports the failed teardown, nothing, or the unknown affinity; otherwise it creates as many rows as
      its outside allows, up to the shortfall, and reports what stopped it. */
  lemma ShortfallExact(self: Id, app: App, env: Env, rows: Rows, listed: seq<Replica>) returns (k: nat)
    requires Ready(app, rows, listed) && !(env.volumes && env.affinityFirst.Pinned? && env.affinityDown)
    requires |SeenIds(self, app.id, env, rows)| < app.desired
    ensures var (out, cleaned) := (Pass(self, app, env, rows, listed), Cleaned(self, app.id, env, rows));
            var shortfall := app.desired - |SeenIds(self, app.id, env, rows)|;
            && k <= shortfall && Adds(app, env, cleaned, out.rows, 0, k)
            && (HeldBack(self, env, listed) ==>
                && k == 0 && out.rows == cleaned
                && out.error == (if FirstFailed(env, CleanupActions(self, env, listed)).Some? then FirstFailed(env, CleanupActions(self, env, listed))
                                 else if !env.placeable then None else Some(AffinityUnknown)))
            && (!HeldBack(self, env, listed) ==> StopsWith(env, out.rows, k, shortfall, out.error))
            && exists created :: out.actions == CleanupActions(self, env, listed) + created && Creates(env, created, 0, k)
  {
    hide Cleaned;
    hide LocalCopies;
    hide CleanupActions;
    hide FirstFailed;
    hide Occupants;
    hide OccIds;
    hide SickSet;
    hide UnsavedSet;
    hide SeenIds;
    hide Lists;
    hide Place;
    var cleaned := Cleaned(self, app.id, env, rows);
    OccupantsCount(self, app.id, env, rows, listed);
    k := 0;
    if !HeldBack(self, env, listed) {
      k := PlaceExact(app, env, cleaned, 0, app.desired - |SeenIds(self, app.id, env, rows)|);
    } else {
      assert CleanupActions(self, env, listed) + [] == CleanupActions(self, env, listed) && Creates(env, [], 0, 0);
    }
  }

  /** A pass whose app's data is on a host that is positively down does nothing at all; one that counts as
      many rows as wanted cleans up and no more. */
  lemma QuietPasses(self: Id, app: App, env: Env, rows: Rows, listed: seq<Replica>)
    requires Ready(app, rows, listed)
    ensures var out := Pass(self, app, env, rows, listed);
            var down := env.volumes && env.affinityFirst.Pinned? && env.affinityDown;
            && (down ==> out == PassOut(rows, None, []))
            && (!down && |SeenIds(self, app.id, env, rows)| == app.desired ==>
                && out.rows == Cleaned(self, app.id, env, rows) && out.actions == CleanupActions(self, env, listed)
                && out.error == FirstFailed(env, CleanupActions(self, env, listed)))
  {
    hide Cleaned;
    hide LocalCopies;
    hide CleanupActions;
    hide FirstFailed;
    hide Occupants;
    hide OccIds;
    hide SickSet;
    hide UnsavedSet;
    hide SeenIds;
    hide Lists;
    hide Place;
    OccupantsCount(self, app.id, env, rows, listed);
  }
}
