/** FleetNetLeaseReconciler as it runs: the loops that repair the lease table and re-derive the
    boot verdict (internal/usecase/fleet_net_lease_reconcile.go:127-606), proved to compute the
    functions of LeaseReconcile. */
module LeaseReconciler {
  import opened Text
  import opened NetPlane
  import opened LeaseProtocol
  import opened FleetTypes
  import opened LeaseReconcile

  ghost predicate Offends(w: World, ordinal: int, live: set<int>, leased: set<(OwnerKind, Id)>, r: ReplicaRow) {
    ReplicaClaims(w, ordinal, live, r) && (Replica, r.id) !in leased
  }

  class FleetNetLeaseReconciler {
    const w: World
    var leases: seq<NetLease>
    var effects: seq<Effect>

    constructor (w: World, leases: seq<NetLease>)
      ensures this.w == w && this.leases == leases && effects == []
    {
      this.w := w;
      this.leases := leases;
      effects := [];
    }

    method Reconcile(live: nat -> set<int>) returns (report: Report, refusal: Option<Refusal>)
      modifies this
      ensures var p := ReconcileResult(w, live, old(leases));
              && leases == p.table && effects == old(effects) + p.effects
              && report == p.report && refusal == p.refusal
    {
      hide Derive;
      report := Report(0, 0, 0, 0, 0);
      var scope := Scope(w);
      if scope.Err? { return report, Some(scope.error); }
      var held := HeldOn(leases, w.selfHost);
      report, refusal := SettleHeld(held, live);
      if refusal.None? {
        refusal := AssertNoLeaselessOwner(scope.value, OwnerKeys(held), live(|held|));
      }
    }

    method SettleHeld(held: seq<NetLease>, live: nat -> set<int>) returns (report: Report, refusal: Option<Refusal>)
      modifies this
      ensures var p := Settle(w, held, Decisions(w, live, held), old(leases), |held|);
              && leases == p.table && effects == old(effects) + p.effects
              && report == p.report && refusal == p.refusal
    {
      hide Decisions;
      hide Apply;
      ghost var ds := Decisions(w, live, held);
      report := Report(|held|, 0, 0, 0, 0);
      refusal := None;
      for i := 0 to |held|
        invariant var p := Settle(w, held, ds, old(leases), i);
                  && leases == p.table && effects == old(effects) + p.effects
                  && report == p.report && p.refusal.None?
      {
        ghost var p := Settle(w, held, ds, old(leases), i);
        ApplyAppendsEffects(w, p, held[i], ds[i]);
        report, refusal := ReconcileNth(held, i, live, report);
        if refusal.Some? {
          RefusalSticks(w, held, ds, old(leases), i + 1, |held|);
          return;
        }
      }
      refusal := None;
    }

    method ReconcileNth(held: seq<NetLease>, i: nat, live: nat -> set<int>, before: Report)
      returns (report: Report, refusal: Option<Refusal>)
      requires i < |held|
      modifies this
      ensures var p := Apply(w, Progress(old(leases), before, [], None), held[i], Decisions(w, live, held)[i]);
              && leases == p.table && effects == old(effects) + p.effects
              && report == p.report && refusal == p.refusal
    {
      hide Derive;
      ghost var d := Decide(w, live(i), held[i]);
      report, refusal := ReconcileLease(held[i], live(i), before);
    }

    /** The decision table applied to one lease. */
    method ReconcileLease(l: NetLease, live: set<int>, before: Report) returns (report: Report, refusal: Option<Refusal>)
      modifies this
      ensures var p := Apply(w, Progress(old(leases), before, [], None), l, Decide(w, live, l));
              && leases == p.table && effects == old(effects) + p.effects
              && report == p.report && refusal == p.refusal
    {
      hide Derive;
      report := before;
      refusal := VerifyLease(w, l);
      if refusal.Some? { return; }
      match LoadOwner(w, l) {
        case OwnerBroken => refusal := Some(OwnerUnreadable(l));
        case OwnerGone => report, refusal := ReclaimLease(l, report);
        case OwnerIs(o) =>
          if o.terminal || (o.pid > 0 && o.pid !in live) {
            report, refusal := TearDownAndReclaim(l, report);
          } else if o.pid > 0 {
            if MatchesAddresses(l.at, o.guestIP, o.tapName) {
              report := report.(adopted := report.adopted + 1);
            } else {
              refusal := Some(LiveMismatch(l));
            }
          } else if w.now - l.createdAt < LEASE_ADOPT_GRACE {
            report := report.(left := report.left + 1);
          } else {
            report, refusal := ReclaimLease(l, report);
          }
      }
    }

    method TearDownAndReclaim(l: NetLease, before: Report) returns (report: Report, refusal: Option<Refusal>)
      modifies this
      ensures var p := Apply(w, Progress(old(leases), before, [], None), l, TearDown);
              && leases == p.table && effects == old(effects) + p.effects
              && report == p.report && refusal == p.refusal
    {
      hide Apply;
      TearDownIsStopThenReclaim(w, leases, before, l);
      if w.booter {
        effects := effects + [Stop(l)];
      }
      report := before.(tornDown := before.tornDown + 1);
      report, refusal := ReclaimLease(l, report);
    }

    /** Artifacts first, row last. */
    method ReclaimLease(l: NetLease, before: Report) returns (report: Report, refusal: Option<Refusal>)
      modifies this
      ensures var p := Apply(w, Progress(old(leases), before, [], None), l, Reclaim);
              && leases == p.table && effects == old(effects) + p.effects
              && report == p.report && refusal == p.refusal
    {
      report := before;
      refusal := None;
      if w.reclaimer {
        effects := effects + [Sweep(l)];
      }
      if OwnerKey(l) in w.stuck { return report, Some(ReleaseFailed(l)); }
      leases := Without(leases, OwnerKey(l));
      effects := effects + [Free(l)];
      report := report.(reclaimed := report.reclaimed + 1);
    }

    /** The per-boot verdict; it changes nothing. */
    method Verify(live: set<int>) returns (refusal: Option<Refusal>)
      ensures refusal == VerifyVerdict(w, live, leases)
    {
      hide VerifyOne;
      hide LeaselessVerdict;
      var scope := Scope(w);
      if scope.Err? { return Some(scope.error); }
      var held := HeldOn(leases, w.selfHost);
      var leasedOwners;
      refusal, leasedOwners := VerifyLeases(held, live);
      if refusal.None? {
        refusal := AssertNoLeaselessOwner(scope.value, leasedOwners, live);
      }
    }

    method VerifyLeases(held: seq<NetLease>, live: set<int>)
      returns (refusal: Option<Refusal>, leasedOwners: set<(OwnerKind, Id)>)
      ensures refusal == FirstComplaint(w, live, held)
      ensures refusal.None? ==> leasedOwners == OwnerKeys(held)
    {
      hide VerifyOne;
      hide OwnerKeys;
      leasedOwners := {};
      assert OwnerKeys(held[..0]) == {} by { NoKeys(held); }
      for i := 0 to |held|
        invariant leasedOwners == OwnerKeys(held[..i])
        invariant FirstComplaint(w, live, held) == FirstComplaint(w, live, held[i..])
      {
        OwnerKeysSnoc(held, i);
        leasedOwners := leasedOwners + {OwnerKey(held[i])};
        assert held[i..][0] == held[i] && held[i..][1..] == held[i + 1..];
        refusal := VerifyHeld(held[i], live);
        if refusal.Some? { return; }
      }
      assert held[..|held|] == held;
      refusal := None;
    }

    /** Verify's checks on one lease: self-consistency, a readable owner, and for a running VM the
        same addresses in both records. */
    method VerifyHeld(l: NetLease, live: set<int>) returns (refusal: Option<Refusal>)
      ensures refusal == VerifyOne(w, live, l)
    {
      hide Derive;
      refusal := VerifyLease(w, l);
      if refusal.Some? { return; }
      match LoadOwner(w, l) {
        case OwnerBroken => return Some(OwnerUnreadable(l));
        case OwnerGone =>
        case OwnerIs(o) =>
          if o.pid <= 0 || o.pid !in live { return None; }
          if !MatchesAddresses(l.at, o.guestIP, o.tapName) { return Some(LiveMismatch(l)); }
      }
    }

    method AssertNoLeaselessOwner(ordinal: int, leased: set<(OwnerKind, Id)>, live: set<int>)
      returns (refusal: Option<Refusal>)
      ensures refusal == LeaselessVerdict(w, ordinal, live, leased)
    {
      var occupying := [Booting, Resident, Paused, Draining, Dead];
      var offenders: seq<Id> := [];
      for s := 0 to |occupying|
        invariant forall k :: 0 <= k < s ==> occupying[k] !in w.brokenStates
        invariant offenders != [] <==> exists r :: r in w.replicas && r.state in occupying[..s] && Offends(w, ordinal, live, leased, r)
      {
        if occupying[s] in w.brokenStates {
          assert OccupiesIndex(occupying[s]);
          return Some(OccupantsUnreadable);
        }
        var found := LeaselessReplicas(occupying[s], ordinal, leased, live);
        offenders := offenders + found;
        assert occupying[..s + 1] == occupying[..s] + [occupying[s]];
      }
      assert occupying[..5] == occupying && occupying[0] == Booting && occupying[1] == Resident
        && occupying[2] == Paused && occupying[3] == Draining && occupying[4] == Dead;
      if ordinal == 0 {
        if !w.activeListable { return Some(OccupantsUnreadable); }
        var found := LeaselessWorkloads(ordinal, leased);
        offenders := offenders + found;
      }
      refusal := if offenders != [] then Some(Leaseless) else None;
    }

    /** The active workloads that claim an index without a lease. */
    method LeaselessWorkloads(ordinal: int, leased: set<(OwnerKind, Id)>) returns (offenders: seq<Id>)
      requires ordinal == 0
      ensures offenders != [] <==> exists r :: r in w.workloads && WorkloadClaims(ordinal, r) && (Workload, r.id) !in leased
    {
      offenders := [];
      for i := 0 to |w.workloads|
        invariant offenders != [] <==>
                  exists r :: r in w.workloads[..i] && WorkloadClaims(ordinal, r) && (Workload, r.id) !in leased
      {
        var r := w.workloads[i];
        var active := r.state == WorkloadBooting || r.state == WorkloadRunning;
        if active && !(r.netIndex <= 0 || (Workload, r.id) in leased) {
          offenders := offenders + [r.id];
        }
        assert w.workloads[..i + 1] == w.workloads[..i] + [r];
      }
      assert w.workloads[..|w.workloads|] == w.workloads;
    }

    /** The rows of one state on this host that claim an index without a lease. */
    method LeaselessReplicas(state: ReplicaState, ordinal: int, leased: set<(OwnerKind, Id)>, live: set<int>)
      returns (offenders: seq<Id>)
      requires OccupiesIndex(state)
      ensures offenders != [] <==> exists r :: r in w.replicas && r.state == state && Offends(w, ordinal, live, leased, r)
    {
      offenders := [];
      for i := 0 to |w.replicas|
        invariant offenders != [] <==> exists r :: r in w.replicas[..i] && r.state == state && Offends(w, ordinal, live, leased, r)
      {
        var r := w.replicas[i];
        assert w.replicas[..i + 1] == w.replicas[..i] + [r];
        if r.state != state || r.host.None? || r.host.value != w.selfHost || r.netIndex <= 0 { continue; }
        if (Replica, r.id) in leased { continue; }
        var slot := r.netIndex - ordinal * NET_SLOT_STRIDE;
        if slot < 1 || slot > NET_MAX_SLOT {
          if r.pid.None? || r.pid.value !in live { continue; }
        }
        offenders := offenders + [r.id];
      }
      assert w.replicas[..|w.replicas|] == w.replicas;
    }
  }

  function StopOf(w: World, l: NetLease): seq<Effect> { if w.booter then [Stop(l)] else [] }

  lemma TearDownIsStopThenReclaim(w: World, table: seq<NetLease>, before: Report, l: NetLease)
    ensures var p := Apply(w, Progress(table, before.(tornDown := before.tornDown + 1), [], None), l, Reclaim);
            Apply(w, Progress(table, before, [], None), l, TearDown) == p.(effects := StopOf(w, l) + p.effects)
  {
    hide Without;
    assert [] + EffectsOf(w, l, TearDown) == EffectsOf(w, l, TearDown);
    assert [] + EffectsOf(w, l, Reclaim) == EffectsOf(w, l, Reclaim);
    assert EffectsOf(w, l, TearDown) == StopOf(w, l) + EffectsOf(w, l, Reclaim);
  }

  lemma ApplyAppendsEffects(w: World, p: Progress, l: NetLease, d: Decision)
    requires p.refusal.None?
    ensures var alone := Apply(w, Progress(p.table, p.report, [], None), l, d);
            Apply(w, p, l, d) == alone.(effects := p.effects + alone.effects)
  {}

  lemma NoKeys(held: seq<NetLease>)
    ensures OwnerKeys(held[..0]) == {}
  {}

  lemma OwnerKeysSnoc(held: seq<NetLease>, i: nat)
    requires i < |held|
    ensures OwnerKeys(held[..i + 1]) == OwnerKeys(held[..i]) + {OwnerKey(held[i])}
  {
    assert held[..i + 1] == held[..i] + [held[i]];
  }

  lemma {:induction false} RefusalSticks(w: World, held: seq<NetLease>, ds: seq<Decision>, table: seq<NetLease>, k: nat, n: nat)
    requires k <= n <= |held| == |ds| && Settle(w, held, ds, table, k).refusal.Some?
    ensures Settle(w, held, ds, table, n) == Settle(w, held, ds, table, k)
    decreases n
  {
    if k < n {
      RefusalSticks(w, held, ds, table, k, n - 1);
    }
  }
}
