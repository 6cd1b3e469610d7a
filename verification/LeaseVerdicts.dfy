/** What Reconcile and Verify decide and do, said of the owners' own rows, of process ids and of the
    clock (internal/usecase/fleet_net_lease_reconcile.go:127-606). */
module LeaseVerdicts {
  import opened Text
  import opened NetPlane
  import opened LeaseProtocol
  import opened FleetTypes
  import opened LeaseReconcile

  // ---------------------------------------------------------------- what the owner's row says

  ghost predicate ReplicaRowOf(w: World, l: NetLease, r: ReplicaRow) {
    l.ownerKind == Replica && FindReplica(w.replicas, l.ownerId) == Some(r)
  }

  ghost predicate WorkloadRowOf(w: World, l: NetLease, r: WorkloadRow) {
    l.ownerKind == Workload && FindWorkload(w.workloads, l.ownerId) == Some(r)
  }

  ghost predicate HasRow(w: World, l: NetLease) {
    (exists r :: ReplicaRowOf(w, l, r)) || (exists r :: WorkloadRowOf(w, l, r))
  }

  /** The owner's row can be read, or is known not to be there. */
  ghost predicate Legible(w: World, l: NetLease) {
    || (l.ownerKind == Replica && l.ownerId !in w.brokenReplicas)
    || (l.ownerKind == Workload && l.ownerId !in w.brokenWorkloads)
  }

  /** A dead replica, an exited or failed workload. */
  ghost predicate Terminal(w: World, l: NetLease) {
    || (exists r :: ReplicaRowOf(w, l, r) && r.state == Dead)
    || (exists r :: WorkloadRowOf(w, l, r) && (r.state == WorkloadExited || r.state == WorkloadFailed))
  }

  ghost predicate RecordedPid(w: World, l: NetLease, pid: int) {
    && pid > 0
    && ((exists r :: ReplicaRowOf(w, l, r) && r.pid == Some(pid)) || (exists r :: WorkloadRowOf(w, l, r) && r.pid == Some(pid)))
  }

  ghost predicate Running(w: World, live: set<int>, l: NetLease) { exists pid :: pid in live && RecordedPid(w, l, pid) }

  ghost predicate Exited(w: World, live: set<int>, l: NetLease) { exists pid :: pid !in live && RecordedPid(w, l, pid) }

  /** The row names the guest address and the TAP of the lease. */
  ghost predicate AtLeasedAddress(w: World, l: NetLease) {
    || (exists r :: ReplicaRowOf(w, l, r) && r.guestIP == l.at.guestIP && r.tapName == l.at.tapName)
    || (exists r :: WorkloadRowOf(w, l, r) && r.guestIP == l.at.guestIP && r.tapName == l.at.tapName)
  }

  /** The owner's machine is over. */
  ghost predicate Ended(w: World, live: set<int>, l: NetLease) { Terminal(w, l) || Exited(w, live, l) }

  /** The owner has a row and no process of it was ever recorded. */
  ghost predicate Pidless(w: World, l: NetLease) { HasRow(w, l) && !Terminal(w, l) && forall pid :: !RecordedPid(w, l, pid) }

  /** A boot that may still be under way: no process yet, leased less than ten minutes ago. */
  ghost predicate InGrace(w: World, l: NetLease) { Pidless(w, l) && w.now < l.createdAt + 600 }

  /** Nobody uses the lease and nothing has to be stopped. */
  ghost predicate Lapsed(w: World, l: NetLease) { !HasRow(w, l) || (Pidless(w, l) && w.now >= l.createdAt + 600) }

  /** The lease can be judged at all. */
  ghost predicate Judged(w: World, l: NetLease) { SelfConsistent(l.at, w.uidBase) && Legible(w, l) }

  lemma OwnerRead(w: World, l: NetLease)
    ensures var o := LoadOwner(w, l);
            && (o.OwnerBroken? <==> !Legible(w, l))
            && (o.OwnerGone? <==> Legible(w, l) && !HasRow(w, l))
            && (o.OwnerIs? ==>
                && (o.owner.terminal <==> Terminal(w, l))
                && (forall pid :: RecordedPid(w, l, pid) <==> pid > 0 && pid == o.owner.pid)
                && (MatchesAddresses(l.at, o.owner.guestIP, o.owner.tapName) <==> AtLeasedAddress(w, l)))
  {
    match l.ownerKind
    case Replica =>
      var row := FindReplica(w.replicas, l.ownerId);
      if row.Some? {
        assert ReplicaRowOf(w, l, row.value);
      }
    case Workload =>
      var row := FindWorkload(w.workloads, l.ownerId);
      if row.Some? {
        assert WorkloadRowOf(w, l, row.value);
      }
    case Unrecognised(_) =>
  }

  lemma OwnerFacts(w: World, live: set<int>, l: NetLease)
    ensures var o := LoadOwner(w, l);
            && (o.OwnerBroken? <==> !Legible(w, l))
            && (o.OwnerGone? ==> !HasRow(w, l) && !Terminal(w, l) && !Running(w, live, l) && !Exited(w, live, l) && !Pidless(w, l))
            && (o.OwnerIs? ==>
                && HasRow(w, l) && (o.owner.terminal <==> Terminal(w, l))
                && (Running(w, live, l) <==> o.owner.pid > 0 && o.owner.pid in live)
                && (Exited(w, live, l) <==> o.owner.pid > 0 && o.owner.pid !in live)
                && (Pidless(w, l) <==> !o.owner.terminal && o.owner.pid <= 0)
                && (MatchesAddresses(l.at, o.owner.guestIP, o.owner.tapName) <==> AtLeasedAddress(w, l)))
  {
    OwnerRead(w, l);
    if !HasRow(w, l) {
      NoRowNoPid(w, l);
    }
    hide Terminal;
    hide RecordedPid;
    hide HasRow;
    hide AtLeasedAddress;
    hide Legible;
    hide LoadOwner;
    var o := LoadOwner(w, l);
    if o.OwnerIs? {
      assert RecordedPid(w, l, o.owner.pid) <==> o.owner.pid > 0;
    }
  }

  lemma NoRowNoPid(w: World, l: NetLease)
    requires !HasRow(w, l)
    ensures !Terminal(w, l) && forall pid :: !RecordedPid(w, l, pid)
  {}

  lemma LeaseFits(w: World, l: NetLease)
    ensures var bad := VerifyLease(w, l);
            && (bad.None? <==> SelfConsistent(l.at, w.uidBase))
            && (bad == Some(OutsidePlane(l)) <==> !(0 <= l.at.hostOrdinal < 16 && 1 <= l.at.localSlot < 1024 && w.uidBase > 0))
            && (bad.Some? ==> bad == Some(OutsidePlane(l)) || bad == Some(Inconsistent(l)))
  {
    hide Derive;
    DeriveExact(l.at.hostOrdinal, l.at.localSlot, w.uidBase);
  }

  /** What becomes of a lease, from the owner's row, the processes alive and the clock. */
  lemma DecisionExact(w: World, live: set<int>, l: NetLease)
    ensures var d := Decide(w, live, l);
            && (d == TearDown <==> Judged(w, l) && Ended(w, live, l))
            && (d == Adopt <==> Judged(w, l) && !Terminal(w, l) && Running(w, live, l) && AtLeasedAddress(w, l))
            && (d == Leave <==> Judged(w, l) && InGrace(w, l))
            && (d == Reclaim <==> Judged(w, l) && Lapsed(w, l))
            && (d == Refuse(OutsidePlane(l)) <==>
                  !(0 <= l.at.hostOrdinal < 16 && 1 <= l.at.localSlot < 1024 && w.uidBase > 0))
            && (d == Refuse(Inconsistent(l)) <==>
                  && 0 <= l.at.hostOrdinal < 16 && 1 <= l.at.localSlot < 1024 && w.uidBase > 0
                  && !SelfConsistent(l.at, w.uidBase))
            && (d == Refuse(OwnerUnreadable(l)) <==> SelfConsistent(l.at, w.uidBase) && !Legible(w, l))
            && (d == Refuse(LiveMismatch(l)) <==>
                  Judged(w, l) && !Terminal(w, l) && Running(w, live, l) && !AtLeasedAddress(w, l))
  {
    hide VerifyLease;
    hide SelfConsistent;
    hide Legible;
    hide Terminal;
    hide Running;
    hide Exited;
    hide Pidless;
    hide HasRow;
    hide AtLeasedAddress;
    hide LoadOwner;
    hide MatchesAddresses;
    LeaseFits(w, l);
    OwnerFacts(w, live, l);
  }

  /** What Verify says of a lease: fine unless it cannot be judged, or its owner runs elsewhere. */
  lemma ComplaintExact(w: World, live: set<int>, l: NetLease)
    ensures VerifyOne(w, live, l).None? <==> Judged(w, l) && (Running(w, live, l) ==> AtLeasedAddress(w, l))
    ensures VerifyOne(w, live, l) == Some(LiveMismatch(l)) <==> Judged(w, l) && Running(w, live, l) && !AtLeasedAddress(w, l)
    ensures VerifyOne(w, live, l) == Some(OwnerUnreadable(l)) <==> SelfConsistent(l.at, w.uidBase) && !Legible(w, l)
  {
    hide VerifyLease;
    hide SelfConsistent;
    hide Legible;
    hide Terminal;
    hide Running;
    hide Exited;
    hide Pidless;
    hide HasRow;
    hide AtLeasedAddress;
    hide LoadOwner;
    hide MatchesAddresses;
    LeaseFits(w, l);
    OwnerFacts(w, live, l);
  }

  // ---------------------------------------------------------------- what Reconcile does, and to whom

  ghost predicate Released(p: Progress, l: NetLease) { l !in p.table }

  /** Why a host-side effect happened. */
  ghost predicate Warranted(w: World, live: set<int>, p: Progress, e: Effect) {
    match e
    case Stop(l) => w.booter && Ended(w, live, l)
    case Sweep(l) => w.reclaimer && (Ended(w, live, l) || Lapsed(w, l)) && (Released(p, l) || p.refusal == Some(ReleaseFailed(l)))
    case Free(l) => (Ended(w, live, l) || Lapsed(w, l)) && Released(p, l)
  }

  /** It is warranted by one of the first k leases, as its turn came. */
  ghost predicate WarrantedBy(w: World, live: nat -> set<int>, held: seq<NetLease>, p: Progress, e: Effect, k: nat)
    requires k <= |held|
  {
    exists i {:trigger held[i]} :: 0 <= i < k && held[i] == e.lease && Warranted(w, live(i), p, e)
  }

  ghost predicate AllWarranted(w: World, live: nat -> set<int>, held: seq<NetLease>, p: Progress, k: nat)
    requires k <= |held|
  {
    forall e :: e in p.effects ==> WarrantedBy(w, live, held, p, e, k)
  }

  lemma OneLeaseWarranted(w: World, live: set<int>, p: Progress, l: NetLease)
    ensures var (d, q) := (Decide(w, live, l), Apply(w, p, l, Decide(w, live, l)));
            && (forall x :: x in q.table ==> x in p.table)
            && q.effects == p.effects + EffectsOf(w, l, d)
            && forall e :: e in EffectsOf(w, l, d) ==> e.lease == l && Warranted(w, live, q, e)
  {
    hide Decide;
    hide Ended;
    hide Lapsed;
    hide Counted;
    hide Judged;
    hide Terminal;
    hide Running;
    hide InGrace;
    hide AtLeasedAddress;
    hide Legible;
    hide SelfConsistent;
    DecisionExact(w, live, l);
  }

  lemma {:induction false} SettleWarranted(w: World, live: nat -> set<int>, held: seq<NetLease>, ds: seq<Decision>, table: seq<NetLease>, k: nat)
    requires k <= |held| && ds == Decisions(w, live, held)
    ensures AllWarranted(w, live, held, Settle(w, held, ds, table, k), k)
  {
    hide Decide;
    hide Decisions;
    hide WarrantedBy;
    hide Apply;
    if k > 0 {
      var p, q := Settle(w, held, ds, table, k - 1), Settle(w, held, ds, table, k);
      SettleWarranted(w, live, held, ds, table, k - 1);
      assert AllWarranted(w, live, held, p, k - 1);
      assert ds[k - 1] == Decide(w, live(k - 1), held[k - 1]);
      OneLeaseWarranted(w, live(k - 1), p, held[k - 1]);
      forall e | e in q.effects ensures WarrantedBy(w, live, held, q, e, k) {
        if e in p.effects {
          StaysWarranted(w, live, held, p, q, e, k);
        } else {
          assert p.refusal.None? && e in EffectsOf(w, held[k - 1], ds[k - 1]);
          WarrantedNow(w, live, held, q, e, k);
        }
      }
    }
  }

  lemma WarrantedNow(w: World, live: nat -> set<int>, held: seq<NetLease>, q: Progress, e: Effect, k: nat)
    requires 0 < k <= |held| && held[k - 1] == e.lease && Warranted(w, live(k - 1), q, e)
    ensures WarrantedBy(w, live, held, q, e, k)
  {
    hide Warranted;
  }

  lemma StaysWarranted(w: World, live: nat -> set<int>, held: seq<NetLease>, p: Progress, q: Progress, e: Effect, k: nat)
    requires 0 < k <= |held| && WarrantedBy(w, live, held, p, e, k - 1)
    requires q == p || (p.refusal.None? && forall x :: x in q.table ==> x in p.table)
    ensures WarrantedBy(w, live, held, q, e, k)
  {
    hide Ended;
    hide Lapsed;
    var i :| 0 <= i < k - 1 && held[i] == e.lease && Warranted(w, live(i), p, e);
    assert Warranted(w, live(i), q, e);
  }

  /** Every effect of Reconcile has its reason in the rows, whether it goes on to succeed or to refuse: a
      VM is stopped only if its owner's row is terminal or its recorded process no longer runs; artifacts
      are swept only of a lease that is then released, or whose release fails; a lease is released only
      if its owner has ended, has no row, or is past the grace period without a process. */
  lemma EffectsAreWarranted(w: World, live: nat -> set<int>, table: seq<NetLease>)
    ensures AllWarranted(w, live, HeldOn(table, w.selfHost), ReconcileResult(w, live, table), |HeldOn(table, w.selfHost)|)
  {
    hide Decisions;
    hide Settle;
    hide LeaselessVerdict;
    hide WarrantedBy;
    var held := HeldOn(table, w.selfHost);
    var ds := Decisions(w, live, held);
    SettleWarranted(w, live, held, ds, table, |held|);
    if Scope(w).Ok? {
      var p, q := Settle(w, held, ds, table, |held|), ReconcileResult(w, live, table);
      forall e | e in q.effects ensures WarrantedBy(w, live, held, q, e, |held|) {
        RefusedWarranted(w, live, held, p, q, e, |held|);
      }
    }
  }

  lemma RefusedWarranted(w: World, live: nat -> set<int>, held: seq<NetLease>, p: Progress, q: Progress, e: Effect, k: nat)
    requires k <= |held| && WarrantedBy(w, live, held, p, e, k) && (q == p || (p.refusal.None? && q.table == p.table))
    ensures WarrantedBy(w, live, held, q, e, k)
  {
    hide Ended;
    hide Lapsed;
    var i :| 0 <= i < k && held[i] == e.lease && Warranted(w, live(i), p, e);
    assert Warranted(w, live(i), q, e);
  }

  /** The owner runs and its row does not say it is over, or it may still be booting. */
  ghost predicate InUse(w: World, live: set<int>, l: NetLease) {
    (!Terminal(w, l) && Running(w, live, l)) || InGrace(w, l)
  }

  lemma InUseHasNoReason(w: World, live: set<int>, l: NetLease)
    requires InUse(w, live, l)
    ensures !Ended(w, live, l) && !Lapsed(w, l)
  {
    OnePid(w, l);
    if !HasRow(w, l) {
      NoRowNoPid(w, l);
    }
    hide RecordedPid;
    hide HasRow;
    hide Terminal;
  }

  lemma OnePid(w: World, l: NetLease)
    ensures forall p, q :: RecordedPid(w, l, p) && RecordedPid(w, l, q) ==> p == q
  {}

  /** The effects in a lease's name are warranted by that lease, at its turn. */
  lemma OwnReason(w: World, live: nat -> set<int>, table: seq<NetLease>, i: nat, e: Effect)
    requires OwnersDistinct(table) && i < |HeldOn(table, w.selfHost)|
    requires e in ReconcileResult(w, live, table).effects && e.lease == HeldOn(table, w.selfHost)[i]
    ensures Warranted(w, live(i), ReconcileResult(w, live, table), e)
  {
    hide ReconcileResult;
    hide HeldOn;
    hide Warranted;
    var held := HeldOn(table, w.selfHost);
    var p := ReconcileResult(w, live, table);
    HeldOwnersDistinct(table, w.selfHost);
    EffectsAreWarranted(w, live, table);
    assert WarrantedBy(w, live, held, p, e, |held|);
    var j :| 0 <= j < |held| && held[j] == e.lease && Warranted(w, live(j), p, e);
    assert OwnerKey(held[i]) == OwnerKey(held[j]);
  }

  lemma OwnEffects(w: World, live: nat -> set<int>, table: seq<NetLease>, e: Effect)
    requires e in ReconcileResult(w, live, table).effects
    ensures e.lease in table && e.lease.hostId == w.selfHost
  {
    hide ReconcileResult;
    hide Warranted;
    var held := HeldOn(table, w.selfHost);
    var p := ReconcileResult(w, live, table);
    EffectsAreWarranted(w, live, table);
    assert WarrantedBy(w, live, held, p, e, |held|);
    var j :| 0 <= j < |held| && held[j] == e.lease && Warranted(w, live(j), p, e);
    assert held[j] in held;
  }

  /** Success or refusal, a lease whose owner runs or may still be booting is left in peace: it stays in
      the table, and nothing is stopped, swept or released in its name. The same holds of every other
      host's lease. */
  lemma LeftInPeace(w: World, live: nat -> set<int>, table: seq<NetLease>, i: nat)
    requires OwnersDistinct(table) && i < |HeldOn(table, w.selfHost)| && InUse(w, live(i), HeldOn(table, w.selfHost)[i])
    ensures var (l, p) := (HeldOn(table, w.selfHost)[i], ReconcileResult(w, live, table));
            && l in p.table && (forall e :: e in p.effects ==> e.lease != l)
            && (forall x :: x in table && x.hostId != w.selfHost ==> x in p.table)
            && (forall e :: e in p.effects ==> e.lease.hostId == w.selfHost)
  {
    hide ReconcileResult;
    hide HeldOn;
    hide InUse;
    hide Ended;
    hide Lapsed;
    hide OwnersDistinct;
    var held := HeldOn(table, w.selfHost);
    var p := ReconcileResult(w, live, table);
    InUseHasNoReason(w, live(i), held[i]);
    InUseStays(w, live, table, i);
    forall e | e in p.effects ensures e.lease != held[i] && e.lease.hostId == w.selfHost {
      OwnEffects(w, live, table, e);
      if e.lease == held[i] {
        OwnReason(w, live, table, i, e);
      }
    }
  }

  lemma InUseStays(w: World, live: nat -> set<int>, table: seq<NetLease>, i: nat)
    requires OwnersDistinct(table) && i < |HeldOn(table, w.selfHost)|
    requires var l := HeldOn(table, w.selfHost)[i]; !Ended(w, live(i), l) && !Lapsed(w, l)
    ensures HeldOn(table, w.selfHost)[i] in ReconcileResult(w, live, table).table
    ensures forall x :: x in table && x.hostId != w.selfHost ==> x in ReconcileResult(w, live, table).table
  {
    hide Settle;
    hide Decide;
    hide LeaselessVerdict;
    hide Ended;
    hide Lapsed;
    hide Terminal;
    hide Running;
    hide AtLeasedAddress;
    hide HeldOn;
    hide OwnersDistinct;
    var held := HeldOn(table, w.selfHost);
    var ds := Decisions(w, live, held);
    HeldOwnersDistinct(table, w.selfHost);
    SettleTable(w, held, ds, table, |held|);
    assert held[i] in held && ds[i] == Decide(w, live(i), held[i]);
    DecisionExact(w, live(i), held[i]);
  }

  // ---------------------------------------------------------------- a successful Reconcile

  ghost predicate Does(w: World, held: seq<NetLease>, ds: seq<Decision>, p: Progress, k: nat)
    requires k <= |held| == |ds|
  {
    forall i :: 0 <= i < k && Frees(ds[i]) ==>
      && OwnerKey(held[i]) !in w.stuck && Free(held[i]) in p.effects
      && (w.reclaimer ==> Sweep(held[i]) in p.effects) && (w.booter && ds[i].TearDown? ==> Stop(held[i]) in p.effects)
  }

  lemma {:induction false} SettleDoes(w: World, held: seq<NetLease>, ds: seq<Decision>, table: seq<NetLease>, k: nat)
    requires k <= |held| == |ds|
    ensures Settle(w, held, ds, table, k).refusal.None? ==> Does(w, held, ds, Settle(w, held, ds, table, k), k)
  {
    hide Without;
    hide Counted;
    if k > 0 {
      SettleDoes(w, held, ds, table, k - 1);
      var p, q := Settle(w, held, ds, table, k - 1), Settle(w, held, ds, table, k);
      if q.refusal.None? {
        assert q.effects == p.effects + EffectsOf(w, held[k - 1], ds[k - 1]);
        forall i | 0 <= i < k && Frees(ds[i])
          ensures OwnerKey(held[i]) !in w.stuck && Free(held[i]) in q.effects
          ensures w.reclaimer ==> Sweep(held[i]) in q.effects
          ensures w.booter && ds[i].TearDown? ==> Stop(held[i]) in q.effects
        {
          if i == k - 1 {
            OneLeaseDoes(w, held[i], ds[i]);
          }
        }
      }
    }
  }

  lemma OneLeaseDoes(w: World, l: NetLease, d: Decision)
    requires Frees(d) && OwnerKey(l) !in w.stuck
    ensures var e := EffectsOf(w, l, d);
            Free(l) in e && (w.reclaimer ==> Sweep(l) in e) && (w.booter && d.TearDown? ==> Stop(l) in e)
  {}

  /** A successful Reconcile, lease by lease: it stops the VM exactly of the ended owners, sweeps and
      releases exactly those leases and the lapsed ones, keeps exactly the leases in use, and leaves other
      hosts' leases alone. */
  lemma ReconcileActsIff(w: World, live: nat -> set<int>, table: seq<NetLease>, i: nat)
    requires OwnersDistinct(table) && ReconcileResult(w, live, table).refusal.None? && i < |HeldOn(table, w.selfHost)|
    ensures var (l, p) := (HeldOn(table, w.selfHost)[i], ReconcileResult(w, live, table));
            && (Stop(l) in p.effects <==> w.booter && Ended(w, live(i), l))
            && (Sweep(l) in p.effects <==> w.reclaimer && (Ended(w, live(i), l) || Lapsed(w, l)))
            && (Free(l) in p.effects <==> Ended(w, live(i), l) || Lapsed(w, l))
            && (l in p.table <==> InUse(w, live(i), l))
            && (InUse(w, live(i), l) && Running(w, live(i), l) ==> AtLeasedAddress(w, l))
            && (forall x :: x in p.table ==> x in table)
            && (forall x :: x in table && x.hostId != w.selfHost ==> x in p.table)
  {
    hide ReconcileResult;
    hide HeldOn;
    hide OwnersDistinct;
    hide InUse;
    hide Ended;
    hide Lapsed;
    hide Running;
    hide AtLeasedAddress;
    var (l, p) := (HeldOn(table, w.selfHost)[i], ReconcileResult(w, live, table));
    LeaseSettled(w, live, table, i);
    if Stop(l) in p.effects {
      OwnReason(w, live, table, i, Stop(l));
    }
    if Sweep(l) in p.effects {
      OwnReason(w, live, table, i, Sweep(l));
    }
    if Free(l) in p.effects {
      OwnReason(w, live, table, i, Free(l));
    }
  }

  lemma LeaseSettled(w: World, live: nat -> set<int>, table: seq<NetLease>, i: nat)
    requires OwnersDistinct(table) && ReconcileResult(w, live, table).refusal.None? && i < |HeldOn(table, w.selfHost)|
    ensures var (l, p) := (HeldOn(table, w.selfHost)[i], ReconcileResult(w, live, table));
            && (l in p.table <==> InUse(w, live(i), l))
            && (InUse(w, live(i), l) && Running(w, live(i), l) ==> AtLeasedAddress(w, l))
            && (Ended(w, live(i), l) || Lapsed(w, l) ==> Free(l) in p.effects && (w.reclaimer ==> Sweep(l) in p.effects))
            && (w.booter && Ended(w, live(i), l) ==> Stop(l) in p.effects)
            && (forall x :: x in p.table ==> x in table)
            && (forall x :: x in table && x.hostId != w.selfHost ==> x in p.table)
  {
    hide HeldOn;
    hide Settle;
    hide LeaselessVerdict;
    hide Decisions;
    hide Decide;
    hide OwnersDistinct;
    hide AtLeasedAddress;
    var held := HeldOn(table, w.selfHost);
    var ds := Decisions(w, live, held);
    assert ds[i] == Decide(w, live(i), held[i]);
    KeptByDecision(w, live, table);
    SettleDoes(w, held, ds, table, |held|);
    AllJudged(w, live, table, i);
    hide ReconcileResult;
    LeaseJudged(w, live(i), held[i]);
  }

  lemma LeaseJudged(w: World, live: set<int>, l: NetLease)
    requires !Decide(w, live, l).Refuse?
    ensures var d := Decide(w, live, l);
            && (Keeps(d) <==> InUse(w, live, l)) && (d.TearDown? <==> Ended(w, live, l))
            && (Frees(d) <==> Ended(w, live, l) || Lapsed(w, l))
            && (InUse(w, live, l) && Running(w, live, l) ==> AtLeasedAddress(w, l))
  {
    hide Decide;
    DecisionExact(w, live, l);
    if InUse(w, live, l) {
      InUseHasNoReason(w, live, l);
    }
    hide Terminal;
    hide Running;
    hide Ended;
    hide Lapsed;
    hide InGrace;
    hide AtLeasedAddress;
  }

  lemma AllJudged(w: World, live: nat -> set<int>, table: seq<NetLease>, i: nat)
    requires ReconcileResult(w, live, table).refusal.None? && i < |HeldOn(table, w.selfHost)|
    ensures !Decide(w, live(i), HeldOn(table, w.selfHost)[i]).Refuse?
  {
    hide Settle;
    hide Decide;
    hide LeaselessVerdict;
    var held := HeldOn(table, w.selfHost);
    SettleRefusesIff(w, held, Decisions(w, live, held), table, |held|);
  }

  /** No effect happens twice. */
  lemma EffectsOnce(w: World, live: nat -> set<int>, table: seq<NetLease>)
    requires OwnersDistinct(table)
    ensures var effects := ReconcileResult(w, live, table).effects;
            forall a, b :: 0 <= a < b < |effects| ==> effects[a] != effects[b]
  {
    hide LeaselessVerdict;
    hide Settle;
    hide HeldOn;
    hide Decisions;
    var held := HeldOn(table, w.selfHost);
    HeldOwnersDistinct(table, w.selfHost);
    SettleOnce(w, held, Decisions(w, live, held), table, |held|);
  }

  ghost predicate Once(held: seq<NetLease>, effects: seq<Effect>, k: nat)
    requires k <= |held|
  {
    && (forall a, b :: 0 <= a < b < |effects| ==> effects[a] != effects[b])
    && (forall a :: 0 <= a < |effects| ==> effects[a].lease in held[..k])
  }

  lemma {:induction false} SettleOnce(w: World, held: seq<NetLease>, ds: seq<Decision>, table: seq<NetLease>, k: nat)
    requires k <= |held| == |ds| && OwnersDistinct(held)
    ensures Once(held, Settle(w, held, ds, table, k).effects, k)
  {
    hide Without;
    hide Counted;
    hide Once;
    hide OwnersDistinct;
    if k == 0 {
      NoneDone(held);
    } else {
      SettleOnce(w, held, ds, table, k - 1);
      var before := Settle(w, held, ds, table, k - 1).effects;
      assert held[..k] == held[..k - 1] + [held[k - 1]];
      assert held[k - 1] !in held[..k - 1] by { NotBefore(held, k); }
      OnceMore(held, before, EffectsOf(w, held[k - 1], ds[k - 1]), k);
    }
  }

  lemma NoneDone(held: seq<NetLease>)
    ensures Once(held, [], 0)
  {}

  lemma NotBefore(held: seq<NetLease>, k: nat)
    requires 0 < k <= |held| && OwnersDistinct(held)
    ensures held[k - 1] !in held[..k - 1]
  {}

  lemma OnceMore(held: seq<NetLease>, before: seq<Effect>, more: seq<Effect>, k: nat)
    requires 0 < k <= |held| && Once(held, before, k - 1) && held[k - 1] !in held[..k - 1]
    requires forall a, b :: 0 <= a < b < |more| ==> more[a] != more[b]
    requires forall a :: 0 <= a < |more| ==> more[a].lease == held[k - 1]
    ensures Once(held, before + more, k) && Once(held, before, k)
  {
    assert held[..k] == held[..k - 1] + [held[k - 1]];
    var all := before + more;
    forall a, b | 0 <= a < b < |all| ensures all[a] != all[b] {
      if b >= |before| && a < |before| {
        assert all[a].lease in held[..k - 1] && all[b].lease == held[k - 1];
      }
    }
  }

  ghost predicate ReleasedInOrder(w: World, live: set<int>, effects: seq<Effect>, at: nat)
    requires at < |effects|
  {
    var l := effects[at].lease;
    (Ended(w, live, l) || Lapsed(w, l)) && CleanedFirst(w, effects, at, Ended(w, live, l))
  }

  /** A row is deleted only directly after its TAP and chroot were swept, and, when its owner's row is
      terminal or its process gone, after a stop of its VM was attempted before that. Whether the stop
      succeeded does not matter to the code. */
  lemma FreedOnlyAfterCleanup(w: World, live: nat -> set<int>, table: seq<NetLease>, at: nat)
    requires at < |ReconcileResult(w, live, table).effects| && ReconcileResult(w, live, table).effects[at].Free?
    ensures var (effects, held) := (ReconcileResult(w, live, table).effects, HeldOn(table, w.selfHost));
            exists i: nat :: i < |held| && held[i] == effects[at].lease && ReleasedInOrder(w, live(i), effects, at)
  {
    hide LeaselessVerdict;
    hide Settle;
    hide HeldOn;
    hide Decide;
    hide Decisions;
    hide CleanedFirst;
    hide Ended;
    hide Lapsed;
    var held := HeldOn(table, w.selfHost);
    var ds := Decisions(w, live, held);
    SettledCleanly(w, held, ds, table, |held|);
    var effects := ReconcileResult(w, live, table).effects;
    assert FreedCleanly(w, held, ds, effects, at);
    var i :| 0 <= i < |held| && held[i] == effects[at].lease && Frees(ds[i]) && CleanedFirst(w, effects, at, ds[i].TearDown?);
    assert ds[i] == Decide(w, live(i), held[i]);
    LeaseJudged(w, live(i), held[i]);
    assert ReleasedInOrder(w, live(i), effects, at);
  }

  // ---------------------------------------------------------------- the report

  ghost function Which(ds: seq<Decision>, k: nat, d: Decision): set<int>
    requires k <= |ds|
  {
    set i | 0 <= i < k && ds[i] == d
  }

  lemma WhichGrows(ds: seq<Decision>, k: nat, d: Decision)
    requires k < |ds|
    ensures |Which(ds, k + 1, d)| == |Which(ds, k, d)| + if ds[k] == d then 1 else 0
  {
    var (was, now) := (Which(ds, k, d), Which(ds, k + 1, d));
    assert forall i :: i in now <==> i in was || (i == k && ds[k] == d);
    assert k !in was;
    hide Which;
    if ds[k] == d {
      assert now == was + {k};
    } else {
      assert now == was;
    }
  }

  lemma {:induction false} SettleCounts(w: World, held: seq<NetLease>, ds: seq<Decision>, table: seq<NetLease>, k: nat)
    requires k <= |held| == |ds|
    ensures var p := Settle(w, held, ds, table, k);
            p.refusal.None? ==>
              && p.report.adopted == |Which(ds, k, Adopt)| && p.report.left == |Which(ds, k, Leave)|
              && p.report.tornDown == |Which(ds, k, TearDown)|
              && p.report.reclaimed == |Which(ds, k, TearDown)| + |Which(ds, k, Reclaim)|
  {
    hide EffectsOf;
    hide Without;
    hide Which;
    if k == 0 {
      NoneYet(ds);
    } else {
      SettleCounts(w, held, ds, table, k - 1);
      WhichGrows(ds, k - 1, Adopt);
      WhichGrows(ds, k - 1, Leave);
      WhichGrows(ds, k - 1, TearDown);
      WhichGrows(ds, k - 1, Reclaim);
    }
  }

  lemma NoneYet(ds: seq<Decision>)
    ensures forall d :: Which(ds, 0, d) == {}
  {}

  /** A successful Reconcile counts every lease of this host exactly once, and each under its heading:
      adopted the running ones, left those in grace, torn down the ended ones, reclaimed these and the
      lapsed ones. */
  lemma ReconcileAccountsForEveryLease(w: World, live: nat -> set<int>, table: seq<NetLease>)
    requires ReconcileResult(w, live, table).refusal.None?
    ensures var (r, held) := (ReconcileResult(w, live, table).report, HeldOn(table, w.selfHost));
            && r.leases == |held| && r.adopted + r.reclaimed + r.left == r.leases
            && r.adopted == |set i {:trigger held[i]} | 0 <= i < |held| && !Terminal(w, held[i]) && Running(w, live(i), held[i])|
            && r.left == |set i {:trigger held[i]} | 0 <= i < |held| && InGrace(w, held[i])|
            && r.tornDown == |set i {:trigger held[i]} | 0 <= i < |held| && Ended(w, live(i), held[i])|
            && r.reclaimed == r.tornDown + |set i {:trigger held[i]} | 0 <= i < |held| && Lapsed(w, held[i])|
  {
    hide Settle;
    hide LeaselessVerdict;
    hide HeldOn;
    hide Decide;
    hide Decisions;
    hide Terminal;
    hide Running;
    hide InGrace;
    hide Ended;
    hide Lapsed;
    var held := HeldOn(table, w.selfHost);
    var ds := Decisions(w, live, held);
    SettleAccounts(w, held, ds, table, |held|);
    SettleCounts(w, held, ds, table, |held|);
    hide AtLeasedAddress;
    hide Judged;
    forall i | 0 <= i < |held|
      ensures ds[i] == Adopt <==> !Terminal(w, held[i]) && Running(w, live(i), held[i])
      ensures ds[i] == Leave <==> InGrace(w, held[i])
      ensures ds[i] == TearDown <==> Ended(w, live(i), held[i])
      ensures ds[i] == Reclaim <==> Lapsed(w, held[i])
    {
      assert ds[i] == Decide(w, live(i), held[i]);
      AllJudged(w, live, table, i);
      HeadingExact(w, live(i), held[i]);
    }
    assert Which(ds, |held|, Adopt) == set i {:trigger held[i]} | 0 <= i < |held| && !Terminal(w, held[i]) && Running(w, live(i), held[i]);
    assert Which(ds, |held|, Leave) == set i {:trigger held[i]} | 0 <= i < |held| && InGrace(w, held[i]);
    assert Which(ds, |held|, TearDown) == set i {:trigger held[i]} | 0 <= i < |held| && Ended(w, live(i), held[i]);
    assert Which(ds, |held|, Reclaim) == set i {:trigger held[i]} | 0 <= i < |held| && Lapsed(w, held[i]);
  }

  lemma HeadingExact(w: World, live: set<int>, l: NetLease)
    requires !Decide(w, live, l).Refuse?
    ensures var d := Decide(w, live, l);
            && (d == Adopt <==> !Terminal(w, l) && Running(w, live, l)) && (d == Leave <==> InGrace(w, l))
            && (d == TearDown <==> Ended(w, live, l)) && (d == Reclaim <==> Lapsed(w, l))
  {
    hide Decide;
    DecisionExact(w, live, l);
    LeaseJudged(w, live, l);
    hide Terminal;
    hide Running;
    hide Ended;
    hide Lapsed;
    hide InGrace;
    hide AtLeasedAddress;
  }

  // ---------------------------------------------------------------- Verify

  /** This host's net ordinal, as the host row gives it. */
  ghost predicate OnOrdinal(w: World, o: int) { w.hostRow == HostFound(Some(o)) && 0 <= o < 16 }

  ghost predicate HoldsLease(w: World, table: seq<NetLease>, kind: OwnerKind, owner: Id) {
    exists l :: l in table && l.hostId == w.selfHost && l.ownerKind == kind && l.ownerId == owner
  }

  /** A replica row of this host that has left scheduled and names an index, in the host's block of 1023 or
      with its process running. */
  ghost predicate UsesIndex(w: World, o: int, live: set<int>, r: ReplicaRow) {
    && r.host == Some(w.selfHost) && r.state != Scheduled && r.netIndex > 0
    && (o * 1024 < r.netIndex < o * 1024 + 1024 || (r.pid.Some? && r.pid.value in live))
  }

  ghost predicate Owned(w: World, o: int, live: set<int>, table: seq<NetLease>) {
    && (forall r :: r in w.replicas && UsesIndex(w, o, live, r) ==> HoldsLease(w, table, Replica, r.id))
    && (o == 0 ==> forall r :: r in w.workloads && r.netIndex > 0 && (r.state == WorkloadBooting || r.state == WorkloadRunning) ==>
          HoldsLease(w, table, Workload, r.id))
  }

  /** Verify accepts a state if and only if: the store and this host's identity and ordinal are there;
      every lease of this host fits its own slot, has a readable owner, and is at the owner's address
      when the owner runs; every state but scheduled can be listed, and on ordinal 0 the active
      workloads; and every replica or, on ordinal 0, active workload that uses an index holds a lease. */
  lemma VerifyAcceptsIff(w: World, live: set<int>, table: seq<NetLease>)
    ensures VerifyVerdict(w, live, table).None? <==>
            && w.wired && w.selfHost != 0 && w.listable
            && (forall l :: l in table && l.hostId == w.selfHost ==> Judged(w, l) && (Running(w, live, l) ==> AtLeasedAddress(w, l)))
            && (forall s :: s in w.brokenStates ==> s == Scheduled)
            && (exists o :: OnOrdinal(w, o) && (o == 0 ==> w.activeListable) && Owned(w, o, live, table))
  {
    hide VerifyOne;
    hide Judged;
    hide Running;
    hide AtLeasedAddress;
    hide SomeClaimant;
    hide Owned;
    var held := HeldOn(table, w.selfHost);
    assert (FirstComplaint(w, live, held).None? <==>
            forall l :: l in table && l.hostId == w.selfHost ==> Judged(w, l) && (Running(w, live, l) ==> AtLeasedAddress(w, l))) by {
      NoComplaint(w, live, table);
    }
    if w.hostRow.HostFound? && w.hostRow.ordinal.Some? {
      var o := w.hostRow.ordinal.value;
      NobodyLeaseless(w, o, live, table);
      assert OnOrdinal(w, o) <==> 0 <= o < 16;
    }
  }

  lemma NoComplaint(w: World, live: set<int>, table: seq<NetLease>)
    ensures FirstComplaint(w, live, HeldOn(table, w.selfHost)).None? <==>
            forall l :: l in table && l.hostId == w.selfHost ==> Judged(w, l) && (Running(w, live, l) ==> AtLeasedAddress(w, l))
  {
    hide VerifyOne;
    hide Judged;
    hide Running;
    hide AtLeasedAddress;
    var held := HeldOn(table, w.selfHost);
    forall l ensures VerifyOne(w, live, l).None? <==> Judged(w, l) && (Running(w, live, l) ==> AtLeasedAddress(w, l)) {
      ComplaintExact(w, live, l);
    }
    assert forall i :: 0 <= i < |held| ==> held[i] in held;
  }

  lemma NobodyLeaseless(w: World, o: int, live: set<int>, table: seq<NetLease>)
    ensures !SomeClaimant(w, o, live, OwnerKeys(HeldOn(table, w.selfHost)), false) <==> Owned(w, o, live, table)
  {
    var held := HeldOn(table, w.selfHost);
    forall kind, id: Id ensures (kind, id) in OwnerKeys(held) <==> HoldsLease(w, table, kind, id) {
      LeaseOfKey(w, table, kind, id);
    }
    hide HoldsLease;
    hide OwnerKeys;
    hide HeldOn;
    forall r ensures ReplicaClaims(w, o, live, r) <==> UsesIndex(w, o, live, r) {}
  }

  lemma LeaseOfKey(w: World, table: seq<NetLease>, kind: OwnerKind, id: Id)
    ensures (kind, id) in OwnerKeys(HeldOn(table, w.selfHost)) <==> HoldsLease(w, table, kind, id)
  {}

  /** After a successful Reconcile, Verify accepts if and only if no owner whose lease was released still
      has a row that uses an index on this host. */
  lemma VerifyAfterReconcileIff(w: World, live: nat -> set<int>, table: seq<NetLease>, later: set<int>)
    requires OwnersDistinct(table) && ReconcileResult(w, live, table).refusal.None?
    requires forall i :: later <= live(i)
    ensures var (held, o) := (HeldOn(table, w.selfHost), w.hostRow.ordinal.value);
            VerifyVerdict(w, later, ReconcileResult(w, live, table).table).None? <==>
            forall i: nat :: i < |held| && (Ended(w, live(i), held[i]) || Lapsed(w, held[i])) ==> !StillUsed(w, o, later, held[i])
  {
    hide LeaselessVerdict;
    hide Settle;
    hide VerifyVerdict;
    hide Decide;
    hide Ended;
    hide Lapsed;
    hide OwnersDistinct;
    hide StillUsed;
    var (held, o) := (HeldOn(table, w.selfHost), w.hostRow.ordinal.value);
    var ds := Decisions(w, live, held);
    VerifyAfterSettlingIff(w, live, table, later);
    hide HeldOn;
    forall i: nat | i < |held| ensures Frees(ds[i]) <==> Ended(w, live(i), held[i]) || Lapsed(w, held[i]) {
      assert ds[i] == Decide(w, live(i), held[i]);
      AllJudged(w, live, table, i);
      LeaseJudged(w, live(i), held[i]);
    }
    hide ReconcileResult;
    hide Decisions;
    FreedClaimants(w, o, later, held, ds);
  }

  /** The owner of this lease still has a row that uses an index. */
  ghost predicate StillUsed(w: World, o: int, live: set<int>, l: NetLease) {
    || (exists r :: r in w.replicas && l.ownerKind == Replica && l.ownerId == r.id && UsesIndex(w, o, live, r))
    || (o == 0 && exists r :: r in w.workloads && l.ownerKind == Workload && l.ownerId == r.id && r.netIndex > 0
                              && (r.state == WorkloadBooting || r.state == WorkloadRunning))
  }

  lemma FreedClaimants(w: World, o: int, live: set<int>, held: seq<NetLease>, ds: seq<Decision>)
    requires |held| == |ds|
    ensures SomeClaimant(w, o, live, FreedKeys(held, ds), true) <==>
            exists i: nat :: i < |held| && Frees(ds[i]) && StillUsed(w, o, live, held[i])
  {
    forall r ensures ReplicaClaims(w, o, live, r) <==> UsesIndex(w, o, live, r) {}
    hide ReplicaClaims;
    hide UsesIndex;
    if SomeClaimant(w, o, live, FreedKeys(held, ds), true) {
      if r :| r in w.replicas && ReplicaClaims(w, o, live, r) && (Replica, r.id) in FreedKeys(held, ds) {
        var i :| 0 <= i < |held| && Frees(ds[i]) && OwnerKey(held[i]) == (Replica, r.id);
        assert StillUsed(w, o, live, held[i]);
      } else {
        var r :| r in w.workloads && WorkloadClaims(o, r) && (Workload, r.id) in FreedKeys(held, ds);
        var i :| 0 <= i < |held| && Frees(ds[i]) && OwnerKey(held[i]) == (Workload, r.id);
        assert StillUsed(w, o, live, held[i]);
      }
    }
  }

  /** With liveness frozen and releases working, Reconcile accepts exactly the states that Verify accepts
      or would but for terminal owners still running at another address, whose VMs it stops. */
  lemma ReconcileAcceptsIff(w: World, live: set<int>, table: seq<NetLease>)
    requires w.stuck == {}
    ensures ReconcileResult(w, _ => live, table).refusal.None? <==>
            && w.wired && w.selfHost != 0 && w.listable
            && (forall l :: l in table && l.hostId == w.selfHost ==>
                  Judged(w, l) && (!Terminal(w, l) && Running(w, live, l) ==> AtLeasedAddress(w, l)))
            && (forall s :: s in w.brokenStates ==> s == Scheduled)
            && (exists o :: OnOrdinal(w, o) && (o == 0 ==> w.activeListable) && Owned(w, o, live, table))
  {
    hide ReconcileResult;
    hide Judged;
    hide Running;
    hide Terminal;
    hide AtLeasedAddress;
    hide SomeClaimant;
    hide Owned;
    hide Tolerated;
    var held := HeldOn(table, w.selfHost);
    SettlingAcceptsIff(w, live, table);
    forall l ensures Tolerated(w, live, l) <==> Judged(w, l) && (!Terminal(w, l) && Running(w, live, l) ==> AtLeasedAddress(w, l)) {
      ToleratedExact(w, live, l);
    }
    assert forall l :: l in held <==> l in table && l.hostId == w.selfHost;
    assert forall i :: 0 <= i < |held| ==> held[i] in held;
    hide HeldOn;
    if w.hostRow.HostFound? && w.hostRow.ordinal.Some? {
      var o := w.hostRow.ordinal.value;
      NobodyLeaseless(w, o, live, table);
      assert OnOrdinal(w, o) <==> 0 <= o < 16;
    }
  }

  lemma ToleratedExact(w: World, live: set<int>, l: NetLease)
    ensures Tolerated(w, live, l) <==> Judged(w, l) && (!Terminal(w, l) && Running(w, live, l) ==> AtLeasedAddress(w, l))
  {
    hide VerifyOne;
    hide VerifyLease;
    hide LoadOwner;
    hide SelfConsistent;
    hide Legible;
    hide Terminal;
    hide Running;
    hide AtLeasedAddress;
    ComplaintExact(w, live, l);
    LeaseFits(w, l);
    OwnerFacts(w, live, l);
  }
}
