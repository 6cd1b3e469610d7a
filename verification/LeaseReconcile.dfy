/** Startup repair of the lease table and the per-boot verdict, as functions of one state of
    the stores (internal/usecase/fleet_net_lease_reconcile.go). */
module LeaseReconcile {
  import opened Text
  import opened NetPlane
  import opened LeaseProtocol
  import opened FleetTypes

  const LEASE_ADOPT_GRACE := 600 // seconds

  datatype ReplicaRow = ReplicaRow(
    id: Id, host: Option<Id>, state: ReplicaState, netIndex: int, guestIP: string, tapName: string, pid: Option<int>)

  datatype WorkloadRow = WorkloadRow(
    id: Id, state: WorkloadState, netIndex: int, guestIP: string, tapName: string, pid: Option<int>)

  datatype HostRow = HostUnreadable | HostFound(ordinal: Option<int>)

  /** Everything one pass reads except the lease table and process liveness; the broken sets
      name the reads that fail, stuck the owners whose release fails. */
  datatype World = World(
    wired: bool, booter: bool, reclaimer: bool,
    selfHost: Id, uidBase: int, hostRow: HostRow, listable: bool,
    replicas: seq<ReplicaRow>, brokenReplicas: set<Id>, brokenStates: set<ReplicaState>,
    workloads: seq<WorkloadRow>, brokenWorkloads: set<Id>, activeListable: bool,
    stuck: set<(OwnerKind, Id)>, now: int)

  datatype Refusal =
    | Unscoped | HostRowUnreadable | OrdinalUnassigned | OrdinalOutside | LeasesUnreadable
    | OutsidePlane(lease: NetLease) | Inconsistent(lease: NetLease)
    | OwnerUnreadable(lease: NetLease) | LiveMismatch(lease: NetLease)
    | ReleaseFailed(lease: NetLease)
    | OccupantsUnreadable | Leaseless

  // ---------------------------------------------------------------- table reads

  function OwnerKey(l: NetLease): (OwnerKind, Id) { (l.ownerKind, l.ownerId) }

  function HeldOn(table: seq<NetLease>, host: Id): (held: seq<NetLease>)
    ensures forall l :: l in held <==> l in table && l.hostId == host
  {
    if table == [] then []
    else (if table[0].hostId == host then [table[0]] else []) + HeldOn(table[1..], host)
  }

  /** DELETE by owner key. */
  function Without(table: seq<NetLease>, key: (OwnerKind, Id)): (rest: seq<NetLease>)
    ensures forall l :: l in rest <==> l in table && OwnerKey(l) != key
  {
    if table == [] then []
    else (if OwnerKey(table[0]) == key then [] else [table[0]]) + Without(table[1..], key)
  }

  /** The owner fence. */
  ghost predicate OwnersDistinct(table: seq<NetLease>) {
    forall i, j :: 0 <= i < j < |table| ==> OwnerKey(table[i]) != OwnerKey(table[j])
  }

  lemma {:induction false} HeldOwnersDistinct(table: seq<NetLease>, host: Id)
    requires OwnersDistinct(table)
    ensures OwnersDistinct(HeldOn(table, host))
  {
    if table != [] {
      HeldOwnersDistinct(table[1..], host);
      var tail := HeldOn(table[1..], host);
      forall j | 0 <= j < |tail| ensures OwnerKey(table[0]) != OwnerKey(tail[j]) {
        assert tail[j] in tail;
      }
    }
  }

  function FindReplica(rows: seq<ReplicaRow>, id: Id): (r: Option<ReplicaRow>)
    ensures r.Some? ==> r.value in rows && r.value.id == id
    ensures r.None? ==> forall x :: x in rows ==> x.id != id
  {
    if rows == [] then None else if rows[0].id == id then Some(rows[0]) else FindReplica(rows[1..], id)
  }

  function FindWorkload(rows: seq<WorkloadRow>, id: Id): (r: Option<WorkloadRow>)
    ensures r.Some? ==> r.value in rows && r.value.id == id
    ensures r.None? ==> forall x :: x in rows ==> x.id != id
  {
    if rows == [] then None else if rows[0].id == id then Some(rows[0]) else FindWorkload(rows[1..], id)
  }

  // ---------------------------------------------------------------- one lease

  datatype Owner = Owner(terminal: bool, pid: int, guestIP: string, tapName: string)

  datatype OwnerLookup = OwnerGone | OwnerBroken | OwnerIs(owner: Owner)

  function PidOr0(pid: Option<int>): int { if pid.Some? then pid.value else 0 }

  function LoadOwner(w: World, l: NetLease): OwnerLookup {
    match l.ownerKind
    case Replica =>
      if l.ownerId in w.brokenReplicas then OwnerBroken
      else
        var row := FindReplica(w.replicas, l.ownerId);
        if row.None? then OwnerGone
        else OwnerIs(Owner(row.value.state == Dead, PidOr0(row.value.pid), row.value.guestIP, row.value.tapName))
    case Workload =>
      if l.ownerId in w.brokenWorkloads then OwnerBroken
      else
        var row := FindWorkload(w.workloads, l.ownerId);
        if row.None? then OwnerGone
        else
          var over := row.value.state == WorkloadExited || row.value.state == WorkloadFailed;
          OwnerIs(Owner(over, PidOr0(row.value.pid), row.value.guestIP, row.value.tapName))
    case Unrecognised(_) => OwnerBroken
  }

  function VerifyLease(w: World, l: NetLease): Option<Refusal> {
    match Derive(l.at.hostOrdinal, l.at.localSlot, w.uidBase)
    case Err(_) => Some(OutsidePlane(l))
    case Ok(at) => if at != l.at then Some(Inconsistent(l)) else None
  }

  datatype Decision = Reclaim | TearDown | Adopt | Leave | Refuse(why: Refusal)

  /** The decision table for one lease, given the pids that are alive right now. */
  function Decide(w: World, live: set<int>, l: NetLease): Decision {
    var bad := VerifyLease(w, l);
    if bad.Some? then Refuse(bad.value)
    else match LoadOwner(w, l)
      case OwnerBroken => Refuse(OwnerUnreadable(l))
      case OwnerGone => Reclaim
      case OwnerIs(o) =>
        if o.terminal then TearDown
        else if o.pid > 0 && o.pid !in live then TearDown
        else if o.pid > 0 then
          if MatchesAddresses(l.at, o.guestIP, o.tapName) then Adopt else Refuse(LiveMismatch(l))
        else if w.now - l.createdAt < LEASE_ADOPT_GRACE then Leave
        else Reclaim
  }

  predicate Keeps(d: Decision) { d.Adopt? || d.Leave? }
  predicate Frees(d: Decision) { d.Reclaim? || d.TearDown? }

  // ---------------------------------------------------------------- leaseless owners

  predicate OccupiesIndex(s: ReplicaState) { s != Scheduled }

  predicate InBlock(ordinal: int, netIndex: int) {
    1 <= netIndex - ordinal * NET_SLOT_STRIDE <= NET_MAX_SLOT
  }

  /** A replica row that lays claim to an index of this host: in its block, or running. */
  predicate ReplicaClaims(w: World, ordinal: int, live: set<int>, r: ReplicaRow) {
    && OccupiesIndex(r.state)
    && r.host == Some(w.selfHost)
    && r.netIndex > 0
    && (InBlock(ordinal, r.netIndex) || (r.pid.Some? && r.pid.value in live))
  }

  predicate WorkloadClaims(ordinal: int, r: WorkloadRow) {
    ordinal == 0 && (r.state == WorkloadBooting || r.state == WorkloadRunning) && r.netIndex > 0
  }

  ghost predicate SomeClaimant(w: World, ordinal: int, live: set<int>, keys: set<(OwnerKind, Id)>, among: bool) {
    || (exists r :: r in w.replicas && ReplicaClaims(w, ordinal, live, r) && ((Replica, r.id) in keys) == among)
    || (exists r :: r in w.workloads && WorkloadClaims(ordinal, r) && ((Workload, r.id) in keys) == among)
  }

  ghost predicate OccupantsReadable(w: World, ordinal: int) {
    && (forall s :: s in w.brokenStates ==> !OccupiesIndex(s))
    && (ordinal == 0 ==> w.activeListable)
  }

  ghost function LeaselessVerdict(w: World, ordinal: int, live: set<int>, leased: set<(OwnerKind, Id)>): Option<Refusal> {
    if !OccupantsReadable(w, ordinal) then Some(OccupantsUnreadable)
    else if SomeClaimant(w, ordinal, live, leased, false) then Some(Leaseless)
    else None
  }

  // ---------------------------------------------------------------- Verify

  function Scope(w: World): Result<int, Refusal> {
    if !w.wired || w.selfHost == NIL_ID then Err(Unscoped)
    else if w.hostRow.HostUnreadable? then Err(HostRowUnreadable)
    else if w.hostRow.ordinal.None? then Err(OrdinalUnassigned)
    else if w.hostRow.ordinal.value < 0 || w.hostRow.ordinal.value > NET_MAX_ORDINAL then Err(OrdinalOutside)
    else if !w.listable then Err(LeasesUnreadable)
    else Ok(w.hostRow.ordinal.value)
  }

  function OwnerKeys(held: seq<NetLease>): set<(OwnerKind, Id)> {
    set l | l in held :: OwnerKey(l)
  }

  function VerifyOne(w: World, live: set<int>, l: NetLease): Option<Refusal> {
    var bad := VerifyLease(w, l);
    if bad.Some? then bad
    else match LoadOwner(w, l)
      case OwnerBroken => Some(OwnerUnreadable(l))
      case OwnerGone => None
      case OwnerIs(o) =>
        if o.pid <= 0 || o.pid !in live || MatchesAddresses(l.at, o.guestIP, o.tapName) then None
        else Some(LiveMismatch(l))
  }

  function FirstComplaint(w: World, live: set<int>, held: seq<NetLease>): (r: Option<Refusal>)
    ensures r.None? <==> forall i :: 0 <= i < |held| ==> VerifyOne(w, live, held[i]).None?
  {
    if held == [] then None
    else if VerifyOne(w, live, held[0]).Some? then VerifyOne(w, live, held[0])
    else FirstComplaint(w, live, held[1..])
  }

  ghost function VerifyVerdict(w: World, live: set<int>, table: seq<NetLease>): Option<Refusal> {
    match Scope(w)
    case Err(why) => Some(why)
    case Ok(ordinal) =>
      var held := HeldOn(table, w.selfHost);
      var complaint := FirstComplaint(w, live, held);
      if complaint.Some? then complaint else LeaselessVerdict(w, ordinal, live, OwnerKeys(held))
  }

  // ---------------------------------------------------------------- Reconcile

  datatype Report = Report(leases: nat, adopted: nat, tornDown: nat, reclaimed: nat, left: nat)

  /** Host-side effects in the order they are attempted: stopping the owner's VM, removing the
      TAP and chroot, deleting the row. */
  datatype Effect = Stop(lease: NetLease) | Sweep(lease: NetLease) | Free(lease: NetLease)

  datatype Progress = Progress(
    table: seq<NetLease>, report: Report, effects: seq<Effect>, refusal: Option<Refusal>)

  /** What settling one lease does to the host, in order. */
  function EffectsOf(w: World, l: NetLease, d: Decision): seq<Effect> {
    if !Frees(d) then []
    else
      (if d.TearDown? && w.booter then [Stop(l)] else [])
      + (if w.reclaimer then [Sweep(l)] else [])
      + (if OwnerKey(l) in w.stuck then [] else [Free(l)])
  }

  function Counted(r: Report, d: Decision, freed: bool): Report {
    r.(adopted := r.adopted + if d.Adopt? then 1 else 0,
       left := r.left + if d.Leave? then 1 else 0,
       tornDown := r.tornDown + if d.TearDown? then 1 else 0,
       reclaimed := r.reclaimed + if freed then 1 else 0)
  }

  function Apply(w: World, p: Progress, l: NetLease, d: Decision): Progress {
    var freed := Frees(d) && OwnerKey(l) !in w.stuck;
    Progress(
      if freed then Without(p.table, OwnerKey(l)) else p.table,
      Counted(p.report, d, freed),
      p.effects + EffectsOf(w, l, d),
      if d.Refuse? then Some(d.why) else if Frees(d) && !freed then Some(ReleaseFailed(l)) else None)
  }

  /** live(i) is the set of live pids when lease i is judged. */
  function Decisions(w: World, live: nat -> set<int>, held: seq<NetLease>): (ds: seq<Decision>)
    ensures |ds| == |held|
    ensures forall i {:trigger Decide(w, live(i), held[i])} :: 0 <= i < |held| ==> ds[i] == Decide(w, live(i), held[i])
  {
    if held == [] then []
    else
      var n := |held| - 1;
      var front := Decisions(w, live, held[..n]);
      assert forall i {:trigger Decide(w, live(i), held[i])} :: 0 <= i < n ==> front[i] == Decide(w, live(i), held[..n][i]);
      front + [Decide(w, live(n), held[n])]
  }

  /** The pass after its first k leases. */
  function Settle(w: World, held: seq<NetLease>, ds: seq<Decision>, table: seq<NetLease>, k: nat): Progress
    requires k <= |held| == |ds|
  {
    if k == 0 then Progress(table, Report(|held|, 0, 0, 0, 0), [], None)
    else
      var p := Settle(w, held, ds, table, k - 1);
      if p.refusal.Some? then p else Apply(w, p, held[k - 1], ds[k - 1])
  }

  function SettleAll(w: World, live: nat -> set<int>, table: seq<NetLease>): Progress {
    var held := HeldOn(table, w.selfHost);
    Settle(w, held, Decisions(w, live, held), table, |held|)
  }

  ghost function ReconcileResult(w: World, live: nat -> set<int>, table: seq<NetLease>): Progress {
    match Scope(w)
    case Err(why) => Progress(table, Report(0, 0, 0, 0, 0), [], Some(why))
    case Ok(ordinal) =>
      var held := HeldOn(table, w.selfHost);
      var p := SettleAll(w, live, table);
      if p.refusal.Some? then p
      else p.(refusal := LeaselessVerdict(w, ordinal, live(|held|), OwnerKeys(held)))
  }

  // ---------------------------------------------------------------- what Reconcile does

  lemma {:induction false} SettleAccounts(w: World, held: seq<NetLease>, ds: seq<Decision>, table: seq<NetLease>, k: nat)
    requires k <= |held| == |ds|
    ensures var p := Settle(w, held, ds, table, k);
            && p.report.leases == |held|
            && (p.refusal.None? ==>
                && p.report.adopted + p.report.reclaimed + p.report.left == k
                && p.report.tornDown <= p.report.reclaimed)
  {
    if k > 0 {
      SettleAccounts(w, held, ds, table, k - 1);
    }
  }

  ghost predicate Sublist(held: seq<NetLease>, table: seq<NetLease>) {
    OwnersDistinct(held) && OwnersDistinct(table) && forall l :: l in held ==> l in table
  }

  /** Which rows survive the first k leases: a lease of this host goes exactly when it was judged
      and freed; nothing else ever goes, and nothing is added. */
  ghost predicate Surviving(held: seq<NetLease>, ds: seq<Decision>, table: seq<NetLease>, now: seq<NetLease>, ok: bool, k: nat)
    requires k <= |held| == |ds|
  {
    && (forall l :: l in now ==> l in table)
    && (forall l :: l in table && l !in held ==> l in now)
    && (forall i :: k <= i < |held| ==> held[i] in now)
    && (forall i :: 0 <= i < k && held[i] !in now ==> Frees(ds[i]))
    && (ok ==> forall i :: 0 <= i < k ==> (held[i] in now <==> Keeps(ds[i])))
  }

  lemma {:induction false} SettleTable(w: World, held: seq<NetLease>, ds: seq<Decision>, table: seq<NetLease>, k: nat)
    requires k <= |held| == |ds| && Sublist(held, table)
    ensures var p := Settle(w, held, ds, table, k);
            Surviving(held, ds, table, p.table, p.refusal.None?, k)
  {
    hide Surviving;
    hide TableStep;
    hide Apply;
    hide Sublist;
    if k == 0 {
      SurvivingStart(held, ds, table);
    } else {
      SettleTable(w, held, ds, table, k - 1);
      var p := Settle(w, held, ds, table, k - 1);
      if p.refusal.None? {
        ApplyTable(w, p, held[k - 1], ds[k - 1]);
        var q := Apply(w, p, held[k - 1], ds[k - 1]);
        SurvivingStep(held, ds, table, p.table, q.table, q.refusal.None?, k);
      } else {
        SurvivingSkips(held, ds, table, p.table, k);
      }
    }
  }

  lemma SurvivingStart(held: seq<NetLease>, ds: seq<Decision>, table: seq<NetLease>)
    requires |held| == |ds| && Sublist(held, table)
    ensures Surviving(held, ds, table, table, true, 0)
  {}

  lemma SurvivingSkips(held: seq<NetLease>, ds: seq<Decision>, table: seq<NetLease>, now: seq<NetLease>, k: nat)
    requires 0 < k <= |held| == |ds| && Surviving(held, ds, table, now, false, k - 1)
    ensures Surviving(held, ds, table, now, false, k)
  {}

  lemma SurvivingStep(held: seq<NetLease>, ds: seq<Decision>, table: seq<NetLease>,
                      before: seq<NetLease>, after: seq<NetLease>, ok: bool, k: nat)
    requires 0 < k <= |held| == |ds| && Sublist(held, table)
    requires Surviving(held, ds, table, before, true, k - 1)
    requires TableStep(before, after, held[k - 1], ds[k - 1], ok)
    ensures Surviving(held, ds, table, after, ok, k)
  {
    var l := held[k - 1];
    KeyIsRow(held, table, l);
    forall i | 0 <= i < |held| && i != k - 1 ensures held[i] in after <==> held[i] in before {
      assert held[i] in held && OwnerKey(held[i]) != OwnerKey(l);
    }
  }

  ghost predicate TableStep(before: seq<NetLease>, after: seq<NetLease>, l: NetLease, d: Decision, ok: bool) {
    && (forall x :: x in after ==> x in before)
    && (forall x :: x in before && OwnerKey(x) != OwnerKey(l) ==> x in after)
    && (!Frees(d) ==> after == before)
    && (Frees(d) && ok ==> l !in after)
    && (ok ==> Frees(d) || Keeps(d))
  }

  lemma ApplyTable(w: World, p: Progress, l: NetLease, d: Decision)
    requires p.refusal.None?
    ensures TableStep(p.table, Apply(w, p, l, d).table, l, d, Apply(w, p, l, d).refusal.None?)
  {}

  lemma KeyIsRow(held: seq<NetLease>, table: seq<NetLease>, l: NetLease)
    requires Sublist(held, table) && l in held
    ensures forall x :: x in table && x != l ==> OwnerKey(x) != OwnerKey(l)
  {
    forall x | x in table && x != l ensures OwnerKey(x) != OwnerKey(l) {
      var i :| 0 <= i < |table| && table[i] == x;
      var j :| 0 <= j < |table| && table[j] == l;
    }
  }

  lemma KeptByDecision(w: World, live: nat -> set<int>, table: seq<NetLease>)
    requires OwnersDistinct(table) && ReconcileResult(w, live, table).refusal.None?
    ensures var held, after := HeldOn(table, w.selfHost), ReconcileResult(w, live, table).table;
            && (forall i :: 0 <= i < |held| ==> (held[i] in after <==> Keeps(Decisions(w, live, held)[i])))
            && (forall l :: l in table && l.hostId != w.selfHost ==> l in after)
            && (forall l :: l in after ==> l in table)
  {
    hide Derive;
    var held := HeldOn(table, w.selfHost);
    HeldOwnersDistinct(table, w.selfHost);
    SettleTable(w, held, Decisions(w, live, held), table, |held|);
  }

  // ---------------------------------------------------------------- order of effects

  /** The deletion at position at comes right after the sweep of the same lease, itself right
      after a stop of its VM when mustStop says so. */
  ghost predicate CleanedFirst(w: World, effects: seq<Effect>, at: nat, mustStop: bool)
    requires at < |effects|
  {
    var l := effects[at].lease;
    var sweep := if w.reclaimer then at - 1 else at;
    && 0 <= sweep && (w.reclaimer ==> effects[sweep] == Sweep(l))
    && (mustStop && w.booter ==> 0 <= sweep - 1 && effects[sweep - 1] == Stop(l))
  }

  ghost predicate FreedCleanly(w: World, held: seq<NetLease>, ds: seq<Decision>, effects: seq<Effect>, at: nat)
    requires |held| == |ds| && at < |effects|
  {
    exists i :: 0 <= i < |held| && held[i] == effects[at].lease && Frees(ds[i])
      && CleanedFirst(w, effects, at, ds[i].TearDown?)
  }

  ghost predicate AllFreedCleanly(w: World, held: seq<NetLease>, ds: seq<Decision>, effects: seq<Effect>)
    requires |held| == |ds|
  {
    forall at :: 0 <= at < |effects| && effects[at].Free? ==> FreedCleanly(w, held, ds, effects, at)
  }

  lemma OneLeaseCleanly(w: World, l: NetLease, d: Decision)
    ensures var e := EffectsOf(w, l, d);
            forall at :: 0 <= at < |e| && e[at].Free? ==>
              e[at].lease == l && Frees(d) && CleanedFirst(w, e, at, d.TearDown?)
  {}

  lemma AppendedCleanly(w: World, held: seq<NetLease>, ds: seq<Decision>, before: seq<Effect>, more: seq<Effect>, k: nat)
    requires k < |held| == |ds| && AllFreedCleanly(w, held, ds, before)
    requires forall at :: 0 <= at < |more| && more[at].Free? ==>
               more[at].lease == held[k] && Frees(ds[k]) && CleanedFirst(w, more, at, ds[k].TearDown?)
    ensures AllFreedCleanly(w, held, ds, before + more)
  {
    var e := before + more;
    forall at | 0 <= at < |e| && e[at].Free? ensures FreedCleanly(w, held, ds, e, at) {
      if at < |before| {
        assert FreedCleanly(w, held, ds, before, at);
        var i :| 0 <= i < |held| && held[i] == before[at].lease && Frees(ds[i])
          && CleanedFirst(w, before, at, ds[i].TearDown?);
        assert CleanedFirst(w, e, at, ds[i].TearDown?);
      } else {
        assert more[at - |before|] == e[at];
        assert CleanedFirst(w, e, at, ds[k].TearDown?);
      }
    }
  }

  lemma {:induction false} SettledCleanly(w: World, held: seq<NetLease>, ds: seq<Decision>, table: seq<NetLease>, k: nat)
    requires k <= |held| == |ds|
    ensures AllFreedCleanly(w, held, ds, Settle(w, held, ds, table, k).effects)
  {
    hide CleanedFirst;
    if k > 0 {
      SettledCleanly(w, held, ds, table, k - 1);
      OneLeaseCleanly(w, held[k - 1], ds[k - 1]);
      var before := Settle(w, held, ds, table, k - 1).effects;
      AppendedCleanly(w, held, ds, before, EffectsOf(w, held[k - 1], ds[k - 1]), k - 1);
    }
  }

  // ---------------------------------------------------------------- Verify versus Reconcile

  /** Processes only die while a pass runs. */
  ghost predicate Shrinking(live: nat -> set<int>, atVerify: set<int>) {
    forall i :: live(i) <= atVerify
  }

  /** The one complaint Verify has that Reconcile does not: a terminal owner still running at
      another address is torn down by Reconcile, not refused. */
  ghost predicate Tolerated(w: World, live: set<int>, l: NetLease) {
    || VerifyOne(w, live, l).None?
    || (VerifyLease(w, l).None? && LoadOwner(w, l).OwnerIs? && LoadOwner(w, l).owner.terminal)
  }

  lemma DecideRefusesIff(w: World, live: set<int>, l: NetLease)
    ensures Decide(w, live, l).Refuse? <==> !Tolerated(w, live, l)
    ensures Decide(w, live, l).Refuse? ==> !Decide(w, live, l).why.ReleaseFailed?
  {
    hide Derive;
  }

  lemma VerifyMonotone(w: World, live: set<int>, more: set<int>, l: NetLease)
    requires live <= more && VerifyOne(w, more, l).None?
    ensures VerifyOne(w, live, l).None?
  {
    hide Derive;
  }

  /** Settle stops at the first refused decision or failed release, and at nothing else. */
  lemma {:induction false} SettleRefusesIff(w: World, held: seq<NetLease>, ds: seq<Decision>, table: seq<NetLease>, k: nat)
    requires k <= |held| == |ds|
    ensures var r := Settle(w, held, ds, table, k).refusal;
            && (r.None? ==> forall i :: 0 <= i < k ==> !ds[i].Refuse?)
            && ((forall i :: 0 <= i < k ==> !ds[i].Refuse?) ==>
                  r.None? || (r.value.ReleaseFailed? && OwnerKey(r.value.lease) in w.stuck))
  {
    hide Derive;
    if k > 0 {
      SettleRefusesIff(w, held, ds, table, k - 1);
    }
  }

  lemma LeaselessMonotone(w: World, ordinal: int, live: set<int>, more: set<int>, leased: set<(OwnerKind, Id)>)
    requires live <= more && LeaselessVerdict(w, ordinal, more, leased).None?
    ensures LeaselessVerdict(w, ordinal, live, leased).None?
  {}

  /** Verify carries every read-only refusal Reconcile can raise: if Verify accepts a state, a
      Reconcile of it, while processes may die but none starts, can only fail on a release. */
  lemma VerifyAcceptsImpliesReconcileSafe(w: World, live: nat -> set<int>, table: seq<NetLease>, atVerify: set<int>)
    requires Shrinking(live, atVerify) && VerifyVerdict(w, atVerify, table).None?
    ensures var r := ReconcileResult(w, live, table).refusal;
            r.None? || (r.value.ReleaseFailed? && OwnerKey(r.value.lease) in w.stuck)
  {
    hide Derive;
    var held := HeldOn(table, w.selfHost);
    var ds := Decisions(w, live, held);
    forall i | 0 <= i < |held| ensures !ds[i].Refuse? {
      assert live(i) <= atVerify;
      VerifyMonotone(w, live(i), atVerify, held[i]);
      DecideRefusesIff(w, live(i), held[i]);
    }
    SettleRefusesIff(w, held, ds, table, |held|);
    LeaselessMonotone(w, Scope(w).value, live(|held|), atVerify, OwnerKeys(held));
  }

  lemma SettlingAcceptsIff(w: World, live: set<int>, table: seq<NetLease>)
    requires w.stuck == {}
    ensures ReconcileResult(w, _ => live, table).refusal.None? <==>
            && Scope(w).Ok?
            && (forall i :: 0 <= i < |HeldOn(table, w.selfHost)| ==> Tolerated(w, live, HeldOn(table, w.selfHost)[i]))
            && LeaselessVerdict(w, Scope(w).value, live, OwnerKeys(HeldOn(table, w.selfHost))).None?
  {
    hide Derive;
    var held := HeldOn(table, w.selfHost);
    var frozen: nat -> set<int> := _ => live;
    var ds := Decisions(w, frozen, held);
    forall i | 0 <= i < |held| ensures ds[i].Refuse? <==> !Tolerated(w, live, held[i]) {
      assert ds[i] == Decide(w, frozen(i), held[i]);
      DecideRefusesIff(w, live, held[i]);
    }
    SettleRefusesIff(w, held, ds, table, |held|);
  }

  // ---------------------------------------------------------------- Verify after Reconcile

  ghost function FreedKeys(held: seq<NetLease>, ds: seq<Decision>): set<(OwnerKind, Id)>
    requires |held| == |ds|
  {
    set i | 0 <= i < |held| && Frees(ds[i]) :: OwnerKey(held[i])
  }

  lemma KeptKeys(held: seq<NetLease>, ds: seq<Decision>, after: seq<NetLease>)
    requires |held| == |ds| && OwnersDistinct(held)
    requires forall i :: 0 <= i < |held| ==> (Frees(ds[i]) || Keeps(ds[i])) && (held[i] in after <==> Keeps(ds[i]))
    requires forall l :: l in after ==> l in held
    ensures OwnerKeys(after) == OwnerKeys(held) - FreedKeys(held, ds)
  {
    forall key ensures key in OwnerKeys(after) <==> key in OwnerKeys(held) - FreedKeys(held, ds) {
      if key in OwnerKeys(after) {
        var l :| l in after && OwnerKey(l) == key;
        var i :| 0 <= i < |held| && held[i] == l;
        forall j | 0 <= j < |held| && OwnerKey(held[j]) == key ensures j == i {}
      } else if key in OwnerKeys(held) {
        var l :| l in held && OwnerKey(l) == key;
        var i :| 0 <= i < |held| && held[i] == l;
      }
    }
  }

  lemma KeptLeaseVerifies(w: World, live: set<int>, later: set<int>, l: NetLease)
    requires later <= live && Keeps(Decide(w, live, l))
    ensures VerifyOne(w, later, l).None?
  {
    hide Derive;
  }

  lemma NewClaimants(w: World, ordinal: int, live: set<int>, leased: set<(OwnerKind, Id)>, freed: set<(OwnerKind, Id)>)
    requires freed <= leased && LeaselessVerdict(w, ordinal, live, leased).None?
    ensures LeaselessVerdict(w, ordinal, live, leased - freed).None? <==> !SomeClaimant(w, ordinal, live, freed, true)
  {}

  lemma AfterSettle(w: World, ds: seq<Decision>, table: seq<NetLease>)
    requires OwnersDistinct(table) && |HeldOn(table, w.selfHost)| == |ds|
    requires Settle(w, HeldOn(table, w.selfHost), ds, table, |ds|).refusal.None?
    ensures var held := HeldOn(table, w.selfHost);
            var after := HeldOn(Settle(w, held, ds, table, |ds|).table, w.selfHost);
            && (forall l :: l in after ==> l in held)
            && (forall i :: 0 <= i < |held| && held[i] in after ==> Keeps(ds[i]))
            && FreedKeys(held, ds) <= OwnerKeys(held)
            && OwnerKeys(after) == OwnerKeys(held) - FreedKeys(held, ds)
  {
    hide Derive;
    var held := HeldOn(table, w.selfHost);
    var after := HeldOn(Settle(w, held, ds, table, |ds|).table, w.selfHost);
    HeldOwnersDistinct(table, w.selfHost);
    SettleTable(w, held, ds, table, |held|);
    SettleRefusesIff(w, held, ds, table, |held|);
    assert forall i :: 0 <= i < |held| ==> held[i] in held;
    KeptKeys(held, ds, after);
  }

  lemma VerifyAfterSettlingIff(w: World, live: nat -> set<int>, table: seq<NetLease>, later: set<int>)
    requires OwnersDistinct(table) && ReconcileResult(w, live, table).refusal.None?
    requires forall i :: later <= live(i)
    ensures var held := HeldOn(table, w.selfHost);
            VerifyVerdict(w, later, ReconcileResult(w, live, table).table).None? <==>
            !SomeClaimant(w, Scope(w).value, later, FreedKeys(held, Decisions(w, live, held)), true)
  {
    hide Derive;
    var held := HeldOn(table, w.selfHost);
    var ds := Decisions(w, live, held);
    AfterSettle(w, ds, table);
    KeptLeasesVerify(w, live, held, HeldOn(ReconcileResult(w, live, table).table, w.selfHost), later);
    assert later <= live(|held|);
    LeaselessMonotone(w, Scope(w).value, later, live(|held|), OwnerKeys(held));
    NewClaimants(w, Scope(w).value, later, OwnerKeys(held), FreedKeys(held, ds));
  }

  lemma KeptLeasesVerify(w: World, live: nat -> set<int>, held: seq<NetLease>, after: seq<NetLease>, later: set<int>)
    requires forall i :: later <= live(i)
    requires forall l :: l in after ==> l in held
    requires forall i :: 0 <= i < |held| && held[i] in after ==> Keeps(Decisions(w, live, held)[i])
    ensures FirstComplaint(w, later, after).None?
  {
    hide Derive;
    forall j | 0 <= j < |after| ensures VerifyOne(w, later, after[j]).None? {
      assert after[j] in after && after[j] in held;
      var i :| 0 <= i < |held| && held[i] == after[j];
      assert later <= live(i);
      KeptLeaseVerifies(w, live(i), later, held[i]);
    }
  }

  lemma DeadReplicaTornDown(w: World, live: set<int>, l: NetLease, row: ReplicaRow)
    requires SelfConsistent(l.at, w.uidBase) && l.ownerKind == Replica && l.ownerId !in w.brokenReplicas
    requires FindReplica(w.replicas, l.ownerId) == Some(row) && row.state == Dead
    ensures Decide(w, live, l) == TearDown
  {
    hide Derive;
  }

  /** So a successful Reconcile does not promise that the next boot is let through: a dead
      replica's lease is freed, and its row then counts as an occupant without a lease. */
  lemma ReconcileDoesNotImplyVerify() returns (w: World, table: seq<NetLease>)
    ensures ReconcileResult(w, _ => {}, table).refusal.None?
    ensures VerifyVerdict(w, {}, ReconcileResult(w, _ => {}, table).table).Some?
  {
    hide Derive;
    hide InFleetSubnet;
    hide Quad;
    hide Denotes;
    DeriveExact(0, 1, 100000);
    var at := Derive(0, 1, 100000).value;
    var l := NetLease(7, 1, at, Replica, 5, 0);
    var row := ReplicaRow(5, Some(1), Dead, 1, at.guestIP, at.tapName, None);
    w := World(true, true, true, 1, 100000, HostFound(Some(0)), true, [row], {}, {}, [], {}, true, {}, 1000);
    table := [l];
    assert l in HeldOn(table, 1);
    assert HeldOn(table, 1) == [l] by { assert HeldOn(table[1..], 1) == []; }
    DeadReplicaTornDown(w, {}, l, row);
    ConcreteRefusal(w, table, l, row);
  }

  lemma ConcreteRefusal(w: World, table: seq<NetLease>, l: NetLease, row: ReplicaRow)
    requires Scope(w) == Ok(0) && table == [l] && HeldOn(table, w.selfHost) == [l] && Decide(w, {}, l) == TearDown
    requires w.replicas == [row] && w.workloads == [] && w.brokenStates == {} && w.activeListable && w.stuck == {}
    requires OwnerKey(l) == (Replica, row.id) && ReplicaClaims(w, 0, {}, row)
    ensures ReconcileResult(w, _ => {}, table).refusal.None?
    ensures VerifyVerdict(w, {}, ReconcileResult(w, _ => {}, table).table).Some?
  {
    hide Derive;
    var held := HeldOn(table, w.selfHost);
    var ds := Decisions(w, _ => {}, held);
    SettleRefusesIff(w, held, ds, table, 1);
    assert l in held && OwnerKey(l) in OwnerKeys(held);
    VerifyAfterSettlingIff(w, _ => {}, table, {});
    assert Frees(ds[0]) && OwnerKey(held[0]) in FreedKeys(held, ds);
    assert row in w.replicas;
  }
}
