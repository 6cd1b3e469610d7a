/** One ReconcileApp pass of one host over the shared replica table, as a function of what the
    runtime, the scheduler and the volume manager answer during the pass
    (internal/usecase/fleet_orchestrator.go:559-821). */
module FleetPass {
  import opened Text
  import opened FleetTypes
  import opened SurplusOrder

  type Rows = map<Id, Replica>

  datatype App = App(id: Id, desired: nat)

  /** RefreshHealth of a resident row. Dying is written to the passed row first; when that write
      does not reach the table the probe reports an error (Unsaved). */
  datatype Probe = Healthy | Unhealthy | Unsaved

  datatype Affinity = Unpinned | Pinned(host: Id) | AffinityBroken

  datatype Pick = Host(host: Id) | NoneSchedulable | SchedulerBroken

  datatype Env = Env(
    stuck: set<Id>,              // replicas whose DecommissionReplica fails
    probes: map<Id, Probe>,
    volumes: bool,               // a volume manager is wired
    affinityFirst: Affinity,     // its answer at the top of the pass
    affinityDown: bool,          // the pinned host is positively not live
    placeable: bool,             // the backing-file check
    affinity: Affinity,          // its answer at placement
    picks: seq<Pick>,            // SelectHost, call by call
    freshIds: seq<Id>,           // uuid.New, call by call
    refusedCreates: set<Id>,     // row inserts that fail
    now: int)

  datatype PassError =
    | TeardownFailed(id: Id) | AffinityUnknown | SelectHostFailed | HostMismatch | CreateFailed

  datatype Action = Stop(id: Id) | Check(id: Id) | Create(id: Id)

  datatype PassOut = PassOut(rows: Rows, error: Option<PassError>, actions: seq<Action>)

  predicate Occupies(s: ReplicaState) { s == Scheduled || s == Booting || s == Resident }

  predicate Owns(self: Id, r: Replica) { r.host == Some(self) }

  function ProbeOf(env: Env, id: Id): Probe { if id in env.probes then env.probes[id] else Healthy }

  ghost predicate WellKeyed(rows: Rows) { forall id :: id in rows ==> rows[id].id == id }

  /** ListByApp: each row of the app once, in some order. */
  ghost predicate Lists(rows: Rows, app: Id, listed: seq<Replica>) {
    && (forall r :: r in listed ==> r.id in rows && rows[r.id] == r && r.app == app)
    && (forall id :: id in rows && rows[id].app == app ==> rows[id] in listed)
    && (forall i, j :: 0 <= i < j < |listed| ==> listed[i].id != listed[j].id)
  }

  // ---------------------------------------------------------------- cleanup of dead rows

  predicate Probed(self: Id, r: Replica) { r.state == Resident && Owns(self, r) }

  predicate TornDown(self: Id, env: Env, r: Replica) {
    || (r.state == Dead && Owns(self, r))
    || (Probed(self, r) && ProbeOf(env, r.id) == Unhealthy)
  }

  /** The row as the pass's own copy has it after the health loop. */
  function LocalCopy(self: Id, env: Env, r: Replica): Replica {
    if Probed(self, r) && ProbeOf(env, r.id) != Healthy then r.(state := Dead) else r
  }

  /** The row as the table has it after both cleanup loops. */
  function StoredCopy(self: Id, env: Env, r: Replica): Option<Replica> {
    if TornDown(self, env, r) then
      if r.id in env.stuck then Some(r.(state := Dead)) else None
    else Some(r)
  }

  function Cleaned(self: Id, app: Id, env: Env, rows: Rows): (out: Rows)
    ensures out.Keys <= rows.Keys
  {
    map id | id in rows && (rows[id].app == app ==> StoredCopy(self, env, rows[id]).Some?)
           :: if rows[id].app == app then StoredCopy(self, env, rows[id]).value else rows[id]
  }

  function LocalCopies(self: Id, env: Env, listed: seq<Replica>): (out: seq<Replica>)
    ensures |out| == |listed| && forall i :: 0 <= i < |listed| ==> out[i] == LocalCopy(self, env, listed[i])
  {
    seq(|listed|, i requires 0 <= i < |listed| => LocalCopy(self, env, listed[i]))
  }

  /** teardownErr: the first teardown, in the order they were attempted, that failed. */
  function FirstFailed(env: Env, actions: seq<Action>): Option<PassError> {
    if actions == [] then None
    else if actions[0].Stop? && actions[0].id in env.stuck then Some(TeardownFailed(actions[0].id))
    else FirstFailed(env, actions[1..])
  }

  function DeadActions(self: Id, listed: seq<Replica>): seq<Action> {
    if listed == [] then []
    else (if listed[0].state == Dead && Owns(self, listed[0]) then [Stop(listed[0].id)] else [])
         + DeadActions(self, listed[1..])
  }

  function ProbeActions(self: Id, env: Env, listed: seq<Replica>): seq<Action> {
    if listed == [] then []
    else
      (if !Probed(self, listed[0]) then []
       else if ProbeOf(env, listed[0].id) == Unhealthy then [Check(listed[0].id), Stop(listed[0].id)]
       else [Check(listed[0].id)])
      + ProbeActions(self, env, listed[1..])
  }

  function CleanupActions(self: Id, env: Env, listed: seq<Replica>): seq<Action> {
    DeadActions(self, listed) + ProbeActions(self, env, listed)
  }

  // ---------------------------------------------------------------- counting and draining

  function Occupants(copies: seq<Replica>): (out: seq<Replica>)
    ensures forall r :: r in out <==> r in copies && Occupies(r.state)
  {
    if copies == [] then []
    else (if Occupies(copies[0].state) then [copies[0]] else []) + Occupants(copies[1..])
  }

  function Local(self: Id, rs: seq<Replica>): (out: seq<Replica>)
    ensures forall r :: r in out <==> r in rs && Owns(self, r)
  {
    if rs == [] then []
    else (if Owns(self, rs[0]) then [rs[0]] else []) + Local(self, rs[1..])
  }

  function Min(a: int, b: int): int { if a < b then a else b }

  function IdsOf(rs: seq<Replica>): (out: seq<Id>)
    ensures |out| == |rs| && forall i :: 0 <= i < |rs| ==> out[i] == rs[i].id
  {
    seq(|rs|, i requires 0 <= i < |rs| => rs[i].id)
  }

  function StopActions(ids: seq<Id>): (out: seq<Action>)
    ensures |out| == |ids| && forall i :: 0 <= i < |ids| ==> out[i] == Stop(ids[i])
  {
    seq(|ids|, i requires 0 <= i < |ids| => Stop(ids[i]))
  }

  /** The rows a surplus pass tears down: the first ones of the drain order, this host's only. */
  function DrainList(self: Id, occupants: seq<Replica>, desired: nat): seq<Id>
    requires |occupants| > desired
  {
    var ordered := Order(Local(self, occupants));
    IdsOf(ordered[..Min(|occupants| - desired, |ordered|)])
  }

  function Drained(env: Env, rows: Rows, ids: seq<Id>): (out: Rows)
    ensures out.Keys <= rows.Keys
  {
    map id | id in rows && !(id in ids && id !in env.stuck) :: rows[id]
  }

  // ---------------------------------------------------------------- placement

  datatype Placed = Placed(rows: Rows, error: Option<PassError>, actions: seq<Action>)

  function PinOf(env: Env): Option<Id> {
    if env.volumes && env.affinity.Pinned? then Some(env.affinity.host) else None
  }

  function NewRow(app: App, env: Env, n: nat, host: Id): Replica
    requires n < |env.freshIds|
  {
    Replica(env.freshIds[n], app.id, Some(host), Scheduled, env.now)
  }

  /** The placement loop from its n-th iteration on. */
  function Place(app: App, env: Env, rows: Rows, n: nat, shortfall: nat): Placed
    requires n <= shortfall
    decreases shortfall - n
  {
    if n == shortfall then Placed(rows, None, [])
    else if n >= |env.picks| || env.picks[n].NoneSchedulable? then Placed(rows, None, [])
    else if env.picks[n].SchedulerBroken? then Placed(rows, Some(SelectHostFailed), [])
    else
      var host := env.picks[n].host;
      if PinOf(env).Some? && host != PinOf(env).value then Placed(rows, Some(HostMismatch), [])
      else if n >= |env.freshIds| || env.freshIds[n] in rows || env.freshIds[n] in env.refusedCreates then
        Placed(rows, Some(CreateFailed), [])
      else
        var rest := Place(app, env, rows[env.freshIds[n] := NewRow(app, env, n, host)], n + 1, shortfall);
        rest.(actions := [Create(env.freshIds[n])] + rest.actions)
  }

  // ---------------------------------------------------------------- the pass

  /** Placement or drain, once the occupants have been counted. */
  function Adjust(self: Id, app: App, env: Env, cleaned: Rows, occupants: seq<Replica>, actions: seq<Action>): PassOut {
    var error := FirstFailed(env, actions);
    if |occupants| < app.desired then
      if error.Some? then PassOut(cleaned, error, actions)
      else if env.volumes && !env.placeable then PassOut(cleaned, None, actions)
      else if env.volumes && env.affinity.AffinityBroken? then PassOut(cleaned, Some(AffinityUnknown), actions)
      else
        var placed := Place(app, env, cleaned, 0, app.desired - |occupants|);
        PassOut(placed.rows, placed.error, actions + placed.actions)
    else if |occupants| > app.desired then
      var drain := DrainList(self, occupants, app.desired);
      PassOut(Drained(env, cleaned, drain), FirstFailed(env, actions + StopActions(drain)), actions + StopActions(drain))
    else PassOut(cleaned, error, actions)
  }

  function Pass(self: Id, app: App, env: Env, rows: Rows, listed: seq<Replica>): PassOut {
    if env.volumes && env.affinityFirst.Pinned? && env.affinityDown then PassOut(rows, None, [])
    else
      Adjust(self, app, env, Cleaned(self, app.id, env, rows),
             Occupants(LocalCopies(self, env, listed)), CleanupActions(self, env, listed))
  }
}
