# A verified model of the fleet control plane

This project models, in Dafny, the parts of the fleet runtime on which several machines must agree:
who owns a network address, who may touch a replica, which traffic a policy scope lets through, and
what the names and wire messages of the platform mean. The source is written in Go; each file below
follows the form of the Go code it models (pure functions stay functions, objects and loops that
update state become classes and methods proved against a specification function).

| part | files |
|---|---|
| addressing plane | `NetPlane`, `LeaseProtocol`, `NetAllocator`, `LeaseReconcile`, `LeaseReconciler`, `LeaseVerdicts` |
| replica reconciler | `SurplusOrder`, `FleetPass`, `FleetPassFacts`, `FleetCapacity`, `FleetPassExact`, `FleetConvergence`, `FleetDecommission`, `FleetOrchestrator`, `FleetSteps`, `FleetMachine`, `FleetRuns`, `FleetOverlap`, `FleetBound`, `FleetStranded`, `FleetTight` |
| network fabric | `PolicyCompiler`, `FabricRuns`, `FabricTrace`, `FabricTombstones`, `FabricTeardown`, `NetworkFabric` |
| names and wire formats | `HAPlacement`, `HostNames`, `ResourceEndpoint`, `PgWire` |
| shared | `Text`, `FleetTypes` |

`dafny verify dfyconfig.toml` checks everything.

## How the hard parts are stated

**Leases.** Many hosts claim slots of one shared table. An `Acquire` call is a phase machine that
alternates between local computation (`Next`) and one answer of the store (`Served`); the store's
contract is the five unique fences and nothing else, slot listings are arbitrary. A run interleaves any
number of such calls with deletes by owner key and crashes. The class `FleetNetAllocator` runs the real
retry loop against a store that other hosts may change before every request, and is proved to be a well-served log
of that machine. `Reconcile` and `Verify` are loops proved to compute functions of one state;
`LeaseVerdicts` says of those functions, in terms of the owners' rows, the recorded process ids and the
clock, what happens to each lease, and compares the two.

**Replicas.** A `ReconcileApp` pass is a function of the replica table and of everything the outside
answers during it: which teardowns fail, what each probe says, what the scheduler, the volume manager
and the row inserts do; `FleetPassExact` describes it row by row and answer by answer. The class
`FleetOrchestrator` runs the loops and is proved to compute that function. `FleetSteps` cuts the pass into its store calls: the listing, each teardown, each recorded
death, each created row; run without interruption they are the pass function again (`AloneIsFinish`).
`FleetMachine` interleaves these calls, of any number of passes on any hosts, with actuation passes under
the per-process lock (of several callers on a host one is inside at a time), boots, probes, rescales and
crashes. A boot keeps the copy of the row it loaded and
writes that copy back when it begins and when it ends, whether or not the row is still in the table.

**Policy scopes.** Each fabric operation is a chain of store and enforcer calls; `FabricRuns` interleaves
any number of operations on any number of hosts. The network and policy tables are shared, the chains
belong to the host that installed them, an operation may stop for good between two calls, a push may fail
after its flush, a drop is refused where the chain is not installed, a host may reboot. `FabricTrace`
follows every pushed rule back to the policy set and the inventory it was compiled from. `FabricTeardown` gives the exact condition on a state under which no way of
letting its operations run on can leave a deprovisioned network with a policy or a chain. The class
`FleetNetworkFabric` runs the operations and is proved to be the solo run of that machine cut after the
number of calls that succeed; `OperationsInSequence` says that such solo runs, one after another, are
runs of the machine.

## What the code does that its comments do not say

- A probe that finds a replica dead marks the in-memory row dead before it saves it
  (`internal/usecase/fleet_replica_runtime.go:478-484`). When the save fails, the pass no longer counts
  the row although the table still holds it as resident, so it places a replacement: the capacity
  promise is false there. `CapacityExceededIff` gives the exact condition, `UnrecordedDeathDoublesTheApp`
  an instance, and `CapacityBound` and `CapacityOverRuns` what holds always.
- A boot ends by saving its own copy of the row, and the save inserts a row that is no longer there
  (`internal/usecase/fleet_replica_runtime.go:365`,
  `internal/repository/postgres/fleet_replica_repository.go:29-31`). A pass that drains a booting row finds no
  handle on it, skips the booter and deletes the row while the boot goes on
  (`internal/usecase/fleet_replica_runtime.go:407-456`); when the boot ends the row is back, and with it the
  VM. `DrainedBootDoublesTheApp` is a run in which no two passes overlap, every death is recorded, never more
  than one row is wanted, and two rows serve; for an app with a volume these are two VMs on a single-writer
  disk. `StrandedIff` is exact: a state can be driven past the desired count, without overlap or unrecorded
  deaths and without removing another booting row, if and only if some boot under way has lost its row.
  `DecommissionApp` does not see such a boot either: it deletes the backing files under it
  (`DestroysUnderBootIff`, `FilesGoUnderABoot`).
- Nothing serialises passes either. With c passes of an app under way at once and h boots whose row was
  removed, its occupying rows can reach c times the desired count plus h (`OverlapReachesBound`): two hosts
  that list before either creates double the app. From an app at or below that count, with every death
  recorded, no run exceeds it (`CapacityOverRuns`).
- Paused and draining rows neither occupy capacity nor count as dead, so no pass ever removes one, and
  `DecommissionApp` never finishes while one exists, however often and wherever it is retried.
  `RetryFinishesIff` is exact about it, `IdleRowBlocksEveryRetry` covers every sequence of attempts. Outside
  tests nothing in the repository writes these two states today: they are declared
  (`internal/domain/fleet_replica.go:16-17`), counted by the scheduler
  (`internal/usecase/fleet_scheduler.go:60`) and scanned by the lease check
  (`internal/usecase/fleet_net_lease_reconcile.go:532-533`), so a row in them comes from an operator's
  update or from a feature still to come.
- Nothing serialises a `Deprovision` against an operation that writes the same network: an
  `ApplyPolicies`, an `EnsureNetwork`, a `RestoreAll`, or the reconcile tick's `SyncForApp`. If they overlap
  and the `Deprovision` finds the chain on its own host, the tombstoned network can end up with a chain, and
  after an `ApplyPolicies` with its policies too (`WriteBesideDeprovision`, `OverlapRevivesATombstone`).
- Chains are per host, and a `Deprovision` drops only the chain of the host that serves it. Any other host
  that enforces the network keeps its chain on the tombstone, with nothing overlapping at all, and its tick
  no longer looks at the network (`SecondHostKeepsItsChain`). `TombstoneChainsExact` says on which hosts a
  tombstone is bare; `SafeIff` is the exact condition for all of this together.
- The iptables enforcer refuses to drop a chain that is not installed
  (`internal/infrastructure/netfabric/iptables_enforcer.go:311-323`), so a `Deprovision` that dropped its chain
  and then failed does nothing on every retry on that host until a sync of the still active network has
  installed the chain again (`RefusedWithoutChain`).
- A successful `Reconcile` does not make the next `Verify` pass; `VerifyAfterReconcileIff` says exactly
  when it does.
- When two listed apps carry one component id the resolver silently keeps the later one; the unique index
  of `migrations/0014_fleet_apps_owner_org_unique.up.sql:11` is what rules that out, and `CompileExact`
  assumes it.
- `RequireHAPlacement` answers "domain unattested" also for hosts that state a domain but no region.
- A host's first label is legal exactly under the condition of `FirstLabelLegalIff`; component or
  environment texts without any letter or digit break it (`SymbolsBreakTheLabel`).

## Model

| member | source | states |
|---|---|---|
| NetPlane.ParsedAddressIsCanonical | internal/domain/fleet_network.go:24-33 | an accepted IPv4 text is exactly the printed form of the four octets it parses to, so two texts never name one address |
| NetPlane.InFleetSubnetIff | internal/domain/fleet_network.go:24-33 | the subnet test accepts a text if and only if it is 10.201.c.d for two octets c and d in their one spelling |
| NetPlane.DeriveExact | internal/domain/fleet_net_lease.go:134-180 | derivation succeeds on exactly ordinals 0 to 15, slots 1 to 1023 and positive uid bases, and says which bound failed; the index is ordinal * 1024 + slot, no octet carries, both printed addresses parse back to the intended address in 10.201.0.0/16, and the closing range checks never fire |
| NetPlane.DeriveInjective | internal/domain/fleet_net_lease.go:40-64 | distinct (ordinal, slot) pairs get disjoint /30 blocks and four different addresses |
| NetPlane.GuestAddressDetermines | internal/domain/fleet_net_lease.go:185-187 | the guest address of a self-consistent lease alone determines ordinal, slot, index, host address, TAP and uid offset |
| NetPlane.SlotNamesDistinct | internal/domain/fleet_net_lease.go:134-180 | TAP names, uids and indexes separate the slots of self-consistent leases |
| LeaseProtocol.NoTwoLeasesCollide | internal/repository/interfaces.go:246-279 | over every interleaving of many hosts' Acquire steps, crashes and deletes by owner key, no two rows share a net index, host slot, host uid, host TAP or owner, nor an address once all rows come from the derivation |
| LeaseProtocol.FinishedAcquireHeldItsLease | internal/usecase/fleet_net_allocator.go:88-198 | a lease a finished call returned was in the shared table, for that owner on that host, right after the answer that finished the call, which was still running just before |
| LeaseProtocol.ReturnedLeaseWasHeld | internal/usecase/fleet_net_allocator.go:111-190 | the same for one call's own log of requests and answers |
| LeaseProtocol.AttemptsAreBoundedAndDistinct | internal/usecase/fleet_net_allocator.go:126-198 | whatever the reads return, at most 32 inserts on pairwise different slots and at most 97 requests |
| LeaseProtocol.HeldLeaseIsReturned | internal/usecase/fleet_net_allocator.go:108-124 | if the table of the first lookup has the owner's lease on this host, the call returns that very lease after this one request; if on another host, it is refused after this one request; nothing is inserted |
| LeaseProtocol.RecheckIsAnswered | internal/usecase/fleet_net_allocator.go:182-198 | after a conflict, a lease of the owner found on this host is returned and ends the call; with none, one elsewhere or a failed lookup the next round begins, and after the thirty-second the attempts are spent |
| LeaseProtocol.EveryClaimIsLowest | internal/usecase/fleet_net_allocator.go:126-180 | every insert attempted is of the lowest slot 1 to 1023 that neither the listing just read nor an earlier attempt of the call names, inside the uid span, with that slot's coordinates on this host |
| LeaseProtocol.OutcomeExact | internal/usecase/fleet_net_allocator.go:88-198 | which answer, at which request, ends a call in which outcome: failed lookup, lease elsewhere, failed listing, exhaustion, failed insert, spent attempts, or a lease |
| LeaseProtocol.ExactReadsTakeLowestFreeSlot | internal/usecase/fleet_net_allocator.go:126-180 | for a new owner and an exact listing, on any plane and table: the first claim is the lowest free slot, exhaustion is reported exactly when all 1023 are held, slots outside the plane or the uid span are refused, and the claim wins at once if and only if no row contests its index or, on this host, its uid or TAP |
| LeaseProtocol.CleanBlockIsUncontested | internal/usecase/fleet_net_allocator.go:150-180 | nothing contests a free slot when no foreign lease is in the block and this host's leases were written under its current uid base |
| NetAllocator.FleetNetAllocator.Acquire | internal/usecase/fleet_net_allocator.go:77-198 | the retry loop, with other hosts changing the table before every request, is a well-served log of the protocol ending in the returned outcome; a lease the owner holds at the first lookup is returned if it is this host's and refused otherwise, after that one request; without store, owner or host identity it makes no request and says why |
| NetAllocator.FleetNetAllocator.LowestFreeSlot | internal/usecase/fleet_net_allocator.go:142-148 | the least slot not taken, or none when all are |
| NetAllocator.FleetNetAllocator.Release | internal/usecase/fleet_net_allocator.go:211-238 | with other hosts acting before the lookup and again before the delete: a delete happens only after this host was seen holding the owner's lease, only that owner's rows can go, after success nobody holds one for it, and foreign rows stay unless the owner moved in between; it succeeds exactly when the lookup is answered, sees no lease of the owner elsewhere and the delete it then needs goes through |
| LeaseVerdicts.DecisionExact | internal/usecase/fleet_net_lease_reconcile.go:317-460 | what becomes of a lease, from its own coordinates, the owner's row (state, pid, guest address, TAP), the processes alive and the clock: torn down if and only if the row is terminal or its process gone, adopted if and only if it runs at the leased address and TAP, left if and only if no process was recorded and it is under ten minutes old, reclaimed if and only if there is no row or that time is over; each refusal likewise |
| LeaseVerdicts.ComplaintExact | internal/usecase/fleet_net_lease_reconcile.go:221-314 | Verify is content with a lease if and only if it fits its slot, its owner can be read, and the owner, if running, is at the leased address |
| LeaseVerdicts.EffectsAreWarranted | internal/usecase/fleet_net_lease_reconcile.go:317-499 | success or refusal, a VM is stopped only if its owner's row is terminal or its recorded process gone, artifacts are swept only of a lease that is then released or whose release failed, and a lease is released only if its owner has ended, has no row, or is past the grace period without a process |
| LeaseVerdicts.LeftInPeace | internal/usecase/fleet_net_lease_reconcile.go:317-373 | success or refusal, the lease of an owner that runs and is not terminal, or may still be booting, stays in the table and nothing is stopped, swept or released in its name; nor of any other host's lease |
| LeaseVerdicts.ReconcileActsIff | internal/usecase/fleet_net_lease_reconcile.go:127-181 | on success, lease by lease: stopped exactly if its owner has ended, swept and released exactly if it has ended or the lease lapsed, still in the table exactly if in use; other hosts' leases untouched, nothing added |
| LeaseVerdicts.EffectsOnce | internal/usecase/fleet_net_lease_reconcile.go:465-499 | no stop, sweep or release happens twice |
| LeaseVerdicts.FreedOnlyAfterCleanup | internal/usecase/fleet_net_lease_reconcile.go:465-499 | the reconciler itself deletes a row only right after its artifacts were swept, and after a teardown attempt before that when the owner has ended |
| LeaseVerdicts.ReconcileAccountsForEveryLease | internal/usecase/fleet_net_lease_reconcile.go:127-181 | on success adopted, left and torn down count exactly the running, the still booting and the ended owners, reclaimed the ended and the lapsed, and adopted + reclaimed + left equals the leases held |
| LeaseVerdicts.VerifyAcceptsIff | internal/usecase/fleet_net_lease_reconcile.go:221-606 | Verify accepts if and only if store, identity and ordinal are there, every lease of the host satisfies ComplaintExact, all states but scheduled (and on ordinal 0 the active workloads) can be listed, and every replica row of the host past scheduled with an index in its block or a running process, and on ordinal 0 every active workload with an index, holds a lease |
| LeaseVerdicts.ReconcileAcceptsIff | internal/usecase/fleet_net_lease_reconcile.go:127-181 | with working releases Reconcile accepts exactly those states and the ones that differ only in terminal owners running at another address |
| LeaseVerdicts.VerifyAfterReconcileIff | internal/usecase/fleet_net_lease_reconcile.go:509-606 | after a successful Reconcile, Verify accepts if and only if no owner whose lease was released still has a row that uses an index |
| LeaseReconcile.VerifyAcceptsImpliesReconcileSafe | internal/usecase/fleet_net_lease_reconcile.go:221-314 | if Verify accepts a state, Reconcile of it, while processes may only die, can fail on nothing but a release |
| LeaseReconcile.ReconcileDoesNotImplyVerify | internal/usecase/fleet_net_lease_reconcile.go:529-581 | a concrete state that Reconcile accepts and repairs into one Verify refuses |
| LeaseReconciler.FleetNetLeaseReconciler.Reconcile | internal/usecase/fleet_net_lease_reconcile.go:127-181 | the pass leaves the table, the effects, the counters and the refusal of the reconcile function |
| LeaseReconciler.FleetNetLeaseReconciler.ReconcileLease | internal/usecase/fleet_net_lease_reconcile.go:317-373 | one lease is settled as the seven-way decision table says |
| LeaseReconciler.FleetNetLeaseReconciler.TearDownAndReclaim | internal/usecase/fleet_net_lease_reconcile.go:465-475 | teardown attempt, artifacts, release, in that order, whatever the attempt's result |
| LeaseReconciler.FleetNetLeaseReconciler.Verify | internal/usecase/fleet_net_lease_reconcile.go:221-258 | the loop over held leases and the leaseless scan give the verdict function and change nothing |
| LeaseReconciler.FleetNetLeaseReconciler.AssertNoLeaselessOwner | internal/usecase/fleet_net_lease_reconcile.go:509-606 | refuses exactly when an occupying row of this host claims an index without a lease, or a needed listing fails |
| SurplusOrder.OrderSorts | internal/usecase/fleet_orchestrator.go:1502-1524 | the drain order is a permutation of its input with scheduled and booting rows before all others, and within either group the newest first |
| SurplusOrder.OrderIsStable | internal/usecase/fleet_orchestrator.go:1502-1515 | rows of one group created at the same time keep their order |
| FleetPassFacts.DrainListFacts | internal/usecase/fleet_orchestrator.go:786-802 | a surplus pass picks exactly min(surplus, local) distinct rows of this host; it takes a row that serves only if it spares no pending row of this host, and of rows alike the newer ones |
| FleetPassFacts.PlaceFacts | internal/usecase/fleet_orchestrator.go:734-785 | placement only adds scheduled rows of the app with fresh ids, each on a host the scheduler answered and on the affinity host when there is one, and at most the shortfall |
| FleetCapacity.CapacityBound | internal/usecase/fleet_orchestrator.go:559-821 | a pass leaves at most the larger of the earlier occupying count and desired plus the deaths it could not record |
| FleetCapacity.CapacityExceededIff | internal/usecase/fleet_replica_runtime.go:462-488 | with everything else cooperating, the bound max(before, desired) is broken if and only if unrecorded deaths reach past the earlier count |
| FleetCapacity.UnrecordedDeathDoublesTheApp | internal/usecase/fleet_replica_runtime.go:478-484 | a concrete pass that takes a desired count of 1 to two occupying rows |
| FleetCapacity.HostFence | internal/usecase/fleet_orchestrator.go:634-656 | every probe and teardown of a pass is on a row of the app stamped with the pass's host; foreign, unstamped and other apps' rows come out unchanged |
| FleetCapacity.CreatedRowsFollowAffinity | internal/usecase/fleet_orchestrator.go:712-785 | each created row is scheduled, dated now, stamped with a host the scheduler answered, and with the agreed affinity host when there is one |
| FleetCapacity.FailedTeardownHoldsPlacement | internal/usecase/fleet_orchestrator.go:674-694 | a pass with a failed teardown creates nothing and returns the first failure |
| FleetCapacity.SurplusDrain | internal/usecase/fleet_orchestrator.go:786-821 | with a surplus the pass attempts exactly min(seen minus desired, local) distinct rows, also after a failed cleanup, and never goes below desired; whenever a row is drained and a local occupant kept, the kept one is resident if the drained one is, and not newer if both are resident or both pending |
| FleetPassExact.CleanupExact | internal/usecase/fleet_orchestrator.go:630-656 | the cleanup removes exactly the app's rows of this host that are dead, or resident and found dead and recorded so, and whose teardown works; those whose teardown fails stay as dead rows, all other rows unchanged |
| FleetPassExact.CleanupActionsExact | internal/usecase/fleet_orchestrator.go:630-656 | it attempts a teardown of exactly those rows and probes exactly this host's residents |
| FleetPassExact.CleanupOrder | internal/usecase/fleet_orchestrator.go:630-656 | dead rows are torn down before any probe, and a resident's teardown comes right after its own probe |
| FleetPassExact.FirstFailedExact | internal/usecase/fleet_orchestrator.go:606-628 | the error carried is that of the first failed teardown, and there is one exactly when a teardown failed |
| FleetPassExact.PlaceExact | internal/usecase/fleet_orchestrator.go:734-785 | placement adds one row per scheduler answer, in order, until the shortfall is filled, no host is to be had, the scheduler breaks, it names a host other than the one with the data, or an insert is refused; the error says which of these |
| FleetPassExact.ShortfallExact | internal/usecase/fleet_orchestrator.go:674-785 | a pass that counts too few rows creates nothing if a teardown failed, the backing file is missing or the affinity is unknown, with the error of that case; otherwise what PlaceExact says |
| FleetPassExact.QuietPasses | internal/usecase/fleet_orchestrator.go:576-610 | a pass whose pinned host is positively down changes nothing; one that counts exactly the desired rows cleans up and no more |
| FleetConvergence.RoundConverges | internal/usecase/fleet_orchestrator.go:630-672 | one cooperative, healthy pass per host of a set owning every row brings the occupying count exactly to desired with no dead row left |
| FleetConvergence.HealthyPass | internal/usecase/fleet_orchestrator.go:559-821 | one such pass fills a shortfall exactly, or shrinks a surplus to desired or to where this host has nothing left |
| FleetConvergence.ConvergedIsStable | internal/usecase/fleet_orchestrator.go:559-821 | a converged table is a fixpoint of every later healthy pass of any host |
| FleetSteps.AloneIsFinish | internal/usecase/fleet_orchestrator.go:630-821 | the store calls of a pass, made one after another with nothing in between, leave the table of the pass acting on its listing, stale or current |
| FleetRuns.EachRowBootsAtMostOnce | internal/usecase/fleet_orchestrator.go:1036-1059 | in every interleaving of single store calls, whatever mix of callers, each row is booted at most once and only by its stamped host, also when a boot writes back a removed row |
| FleetRuns.OnlyTheStampedHostActs | internal/usecase/fleet_orchestrator.go:139-141 | in every such interleaving every probe and teardown was made by the stamped host, on stale listings too, and every row in the table carries its stamp |
| FleetBound.CapacityOverRuns | internal/usecase/fleet_orchestrator.go:559-821 | over every interleaving of single store calls of any hosts: with at most c passes of an app under way at once, at most u deaths unrecorded per pass and at most h boots at once whose row was removed, its occupying rows never exceed the larger of the initial count and c * (largest desired + u) + h |
| FleetBound.HeldOverRuns | internal/usecase/fleet_replica_runtime.go:230-380 | the same from any reachable state with no pass of the app under way, and for occupying rows together with the rows that boots under way will write back |
| FleetStranded.StrandedIff | internal/usecase/fleet_replica_runtime.go:230-456 | from a state with no pass of the app under way and at most n occupants: no boot under way has lost its row if and only if no run wanting at most n rows, without overlapping passes, unrecorded deaths or a further lost row, ever comes to more than n |
| FleetStranded.StrandedOvershoots | internal/usecase/fleet_replica_runtime.go:365-365 | from every such state with a boot that lost its row there is such a run to exactly n + 1 occupants |
| FleetStranded.BootIsDrained | internal/usecase/fleet_replica_runtime.go:407-456 | a run in which a pass removes a booting row: the table has no row of the app, no pass is under way, and the boot goes on |
| FleetStranded.DrainedBootDoublesTheApp | internal/usecase/fleet_replica_runtime.go:230-380 | that run continued, scaled back to one: a new row is created, the old one is written back, and an app that never wanted more than one row has two |
| FleetStranded.DestroysUnderBootIff | internal/usecase/fleet_orchestrator.go:1406-1448 | when a teardown destroys anything, no boot of the app is under way if and only if none has lost its row |
| FleetStranded.FilesGoUnderABoot | internal/usecase/fleet_orchestrator.go:1406-1448 | a run after which every cooperative teardown, on any host, deletes backing files and app row while a boot of the app is under way |
| FleetRuns.AffinityOverRuns | internal/usecase/fleet_orchestrator.go:712-785 | while an app's volumes agree on a host, every row of it that turns up in a run, created or written back, and every copy that a pass or a boot keeps, was there at the start or carries that host |
| FleetTight.OverlapReachesBound | internal/usecase/fleet_orchestrator.go:674-785 | the bound is reached: from every reachable state in which the app has no row and no pass under way, for every c and every desired count d, c overlapping passes and the h boots that lost their row come to exactly c * d + h occupants |
| FleetOverlap.FinishSplits | internal/usecase/fleet_orchestrator.go:630-802 | a pass acting on a stale listing keeps some occupants and makes some, and if it makes any, those it listed and kept plus those it made are at most desired plus the deaths it could not record |
| FleetOrchestrator.FreshFinishIsPass | internal/usecase/fleet_orchestrator.go:559-821 | on a listing that is still current, listing then acting is the atomic pass |
| FleetDecommission.DestroysOnlyWhenSafe | internal/usecase/fleet_orchestrator.go:1346-1448 | files, routes and app row go only when the ledger shows no claim, the drain had no error and the re-listed set is empty; completion is exactly that plus working deletes; other apps lose nothing |
| FleetDecommission.PassKeepsIdle | internal/usecase/fleet_orchestrator.go:559-821 | no pass, whatever the outside answers, adds or removes a paused or draining row |
| FleetDecommission.OwnersDrainAllButIdle | internal/usecase/fleet_orchestrator.go:1406-1415 | after every owner's pass at desired zero, exactly the rows that were paused or draining are left |
| FleetDecommission.ScaledToZeroFirst | internal/usecase/fleet_orchestrator.go:1361-1415 | a teardown that gets past its checks stores the count zero and drains at it, and only the deletion of the app row takes that count away again; an earlier refusal changes nothing; which later refusal it is follows from the rows left |
| FleetDecommission.EarlyRefusalExact | internal/usecase/fleet_orchestrator.go:1329-1365 | each refusal before the drain, from the load, the ledger and the update |
| FleetDecommission.DeletionOrder | internal/usecase/fleet_orchestrator.go:1416-1434 | once it is safe: files, then routes, then the app row, and a failed deletion leaves whatever comes after it |
| FleetDecommission.RetryFinishesIff | internal/usecase/fleet_orchestrator.go:1346-1448 | after a teardown that got past its checks and did not finish, one cooperative round of the owners at the count it stored, and a retry from any host: the retry finishes if and only if no row was paused or draining, and otherwise keeps files, routes and app row |
| FleetDecommission.IdleRowBlocksEveryRetry | internal/usecase/fleet_orchestrator.go:1346-1448 | with a paused or draining row, over every sequence of teardown attempts and passes on any hosts, whatever the outside answers in each, no attempt completes and files, routes and app row stay |
| FleetDecommission.PausedRowBlocksTeardown | internal/usecase/fleet_orchestrator.go:1379-1415 | one paused row is enough for that |
| FleetOrchestrator.CleanupLoops | internal/usecase/fleet_orchestrator.go:630-672 | the dead-row loop followed by the health loop changes the table as the row-by-row cleanup function says |
| FleetOrchestrator.FleetOrchestrator.ReconcileApp | internal/usecase/fleet_orchestrator.go:559-821 | the loops leave the rows, the error and the attempted actions of the pass function |
| FleetOrchestrator.FleetOrchestrator.FinishPass | internal/usecase/fleet_orchestrator.go:630-821 | acting on any listing, stale or current, leaves the rows, error and actions of the function the overlap results are about |
| FleetOrchestrator.FleetOrchestrator.DrainSurplus | internal/usecase/fleet_orchestrator.go:786-802 | the drain loop removes the drain list's rows except those whose teardown fails, and carries the first failure |
| FleetOrchestrator.FleetOrchestrator.PlaceShortfall | internal/usecase/fleet_orchestrator.go:734-785 | the placement loop leaves the rows, error and actions of the placement function |
| FleetOrchestrator.FleetOrchestrator.DecommissionApp | internal/usecase/fleet_orchestrator.go:1346-1448 | the stored state and verdict are those of the decommission function |
| FleetOrchestrator.FleetOrchestrator.ActuateScheduledOwned | internal/usecase/fleet_orchestrator.go:1036-1059 | exactly the scheduled rows stamped with this host whose boot gets going are booted, each once, ending resident, dead or booting as the boot did, and no other row changes |
| PolicyCompiler.PolicyValidIff | internal/domain/fleet_network_policy.go:44-55 | a policy is accepted if and only if it names both ends and is tcp on a port 1 to 65535; a wrong protocol is told apart |
| PolicyCompiler.LastOfIsLast | internal/usecase/fleet_network_fabric.go:371-395 | when several listed apps carry one component id, the last one stands for it |
| PolicyCompiler.CompileExact | internal/usecase/fleet_network_fabric.go:364-441 | a rule is emitted if and only if some policy joins, on its port, resident replicas at addresses 10.201.x.y of same-organisation, same-scope components, given the app table's unique (component, environment, organisation) index |
| PolicyCompiler.TierExact | internal/usecase/fleet_network_fabric.go:412-452 | a policy emits one rule for each pair of live addresses; its report repeats its ends and port and says enforced exactly when there is a rule; otherwise it names the end with no live replica, the source first |
| PolicyCompiler.AggregateExact | internal/usecase/fleet_network_fabric.go:454-463 | the aggregate is enforced exactly when every policy emitted a rule |
| PolicyCompiler.CompileWellFormed | internal/domain/fleet_network_policy.go:44-55 | valid policies compile only to tcp rules on ports 1..65535 between addresses 10.201.x.y, whatever the tables hold |
| PolicyCompiler.CompileSound | internal/usecase/fleet_network_fabric.go:371-395 | with or without the unique index, every emitted rule is joined by some policy inside the network's own scope |
| FabricTrace.PushedRulesStayInScope | internal/usecase/fleet_network_fabric.go:341-441 | in every interleaving on any hosts, every rule ever pushed and every rule of every chain is tcp on a port 1..65535 between addresses 10.201.x.y, and joins, by a policy the table held for that network, addresses served by members of that network's own system, environment and organisation in the inventory its host resolved it against |
| FabricRuns.ScopesArePermanent | internal/usecase/fleet_network_fabric.go:104-175 | a network row keeps its id, key and organisation for ever and no second row takes the key |
| FabricRuns.CallIsLocal | internal/usecase/fleet_network_fabric.go:104-305 | a call touches the row and policies of its own network and its own host's chain of it, and nothing else |
| FabricTombstones.TombstonesHaveNoPolicy | internal/usecase/fleet_network_fabric.go:231-242 | in every run in which no Deprovision of the network that is past its drop overlaps a write of it, a deprovisioned network has no policy |
| FabricTombstones.TombstoneChainsExact | internal/usecase/fleet_network_fabric.go:231-285 | after a host completes a Deprovision and while the network stays deprovisioned, that host has no chain, and any other host has one if and only if it had one then and has neither dropped it nor rebooted since |
| FabricTombstones.RevivedWithoutReach | internal/usecase/fleet_network_fabric.go:128-149 | from a deprovisioning on, through any revivals, syncs, restores and stops in any interleaving, a network has no policy until an ApplyPolicies writes one, and each host's chain is absent, empty or the one it had kept on the tombstone |
| FabricTeardown.SafeIff | internal/usecase/fleet_network_fabric.go:182-285 | a state reached through safe ones is safe if and only if no way of letting the operations under way run, fail or stop leaves the network deprovisioned with a policy or, on any host, a chain; safe means that a Deprovision past its drop has no writer beside it and no chain left anywhere, one that will find its host's chain has no writer beside it and no chain elsewhere, and one that will not find it has, if a writer on its host may push first, no other writer and no chain elsewhere |
| FabricTeardown.TombstonesAreBare | internal/usecase/fleet_network_fabric.go:231-242 | in every run through safe states a deprovisioned network has no policy and no chain on any host |
| FabricTeardown.TombstonesAreBareOnOneHost | internal/usecase/fleet_network_fabric.go:231-242 | with one enforcing host, it is enough that no Deprovision of the network that is past its drop overlaps a write of it |
| FabricTeardown.SafeOnOneHost | internal/usecase/fleet_network_fabric.go:231-242 | with one enforcing host, safe is the same as: no Deprovision that is past its drop or will find its chain overlaps a write, and none that will not find it overlaps two |
| FabricTeardown.OverlapEndangers | internal/usecase/fleet_network_fabric.go:182-285 | a Deprovision past its drop, or about to drop a chain its host has, beside an operation at any call that will yet push the network can be run into a tombstone with a chain |
| FabricTeardown.WriteBesideDeprovision | internal/usecase/fleet_network_fabric.go:231-285 | starting any accepted write of a network on any host, and a Deprovision of it on a host that has its chain, leads to such a state |
| FabricTeardown.TickAndApplyWrite | internal/usecase/fleet_network_fabric.go:270-285 | the tick's SyncForApp and an ApplyPolicies are such writes of every active network |
| FabricTeardown.OverlapRevivesATombstone | internal/usecase/fleet_network_fabric.go:182-242 | an ApplyPolicies overlapped by a Deprovision on a host that has the chain leaves the full policy set and its chain on a tombstone, for every valid set |
| FabricTeardown.SecondHostKeepsItsChain | internal/usecase/fleet_network_fabric.go:231-285 | a Deprovision served by a host that has the chain, overlapping nothing, leaves another host's chain installed rule for rule, and that host's SyncForApp skips it |
| FabricTeardown.RefusedWithoutChain | internal/infrastructure/netfabric/iptables_enforcer.go:311-323 | on a host without the chain a Deprovision changes nothing at all |
| NetworkFabric.OperationsInSequence | internal/usecase/fleet_network_fabric.go:104-305 | operations one after another, each on any host and cut after any number of calls, form a run without overlap |
| NetworkFabric.FleetNetworkFabric.EnsureNetwork | internal/usecase/fleet_network_fabric.go:104-175 | is the solo run cut where calls stop succeeding; it succeeds exactly when the request is complete, the row of that key belongs to the organisation or there is none, and three calls (five to revive, four to create) go through; then that row is active, its policies kept or wiped, its chain compiled or empty, nothing else changed; another organisation's key changes nothing |
| NetworkFabric.FleetNetworkFabric.Revive | internal/usecase/fleet_network_fabric.go:128-149 | completes exactly with five calls, and then the row is active, its policies gone and this host's chain empty |
| NetworkFabric.FleetNetworkFabric.ApplyPolicies | internal/usecase/fleet_network_fabric.go:182-227 | succeeds exactly when the network is active, every policy is valid and three calls go through; one invalid policy rejects the set before any write; accepted, the set is stored by the first call and compiled into this host's chain by the last, with the exact reports and aggregate |
| NetworkFabric.FleetNetworkFabric.Deprovision | internal/usecase/fleet_network_fabric.go:231-242 | the solo run; without this host's chain nothing changes, after the first call that chain is gone wherever it stops; done exactly when the chain was there and all three calls succeeded, and then the row is a tombstone, its policies and this host's chain gone, nothing else changed |
| NetworkFabric.FleetNetworkFabric.RestoreAll | internal/usecase/fleet_network_fabric.go:294-305 | the solo run through the active rows: one network for every three calls, each with its stored policies, compiled now, as this host's chain; done exactly when no call failed, and then every active network has; no other chain changes |
| NetworkFabric.FleetNetworkFabric.SyncForApp | internal/usecase/fleet_network_fabric.go:270-285 | a missing or inactive network is left alone; of an active one this host's chain becomes its stored policies compiled now, exactly when three calls go through |
| NetworkFabric.FleetNetworkFabric.Resolve | internal/usecase/fleet_network_fabric.go:364-441 | the nested loops and maps compute the compiled rules and reports, whatever the map order |
| NetworkFabric.FleetNetworkFabric.AggregateTier | internal/usecase/fleet_network_fabric.go:456-463 | the loop returns the weakest tier |
| HAPlacement.DomainParsesIff | internal/domain/fleet_failure_domain.go:59-78 | a text is a failure domain if and only if it is three segments of [a-z0-9-], none starting with a hyphen, around two slashes; white space alone is missing, anything else invalid |
| HAPlacement.UnattestedIsNoDomain | internal/domain/fleet_failure_domain.go:25-78 | the backfilled marker is an invalid domain and the empty text a missing one |
| HAPlacement.ParsedDomainPrints | internal/domain/fleet_failure_domain.go:59-78 | a parsed domain prints back to its own text and has three legal segments |
| HAPlacement.PrintedDomainParses | internal/domain/fleet_failure_domain.go:59-78 | every triple of legal segments is the parse of its printed form |
| HAPlacement.SameTextSameDomain | internal/domain/fleet_failure_domain.go:43-53 | for attested domains, string equality is site, power and network equality |
| HAPlacement.AcceptsIff | internal/domain/fleet_availability.go:174-222 | accepted if and only if two hosts share a non-empty region and have different attested domains |
| HAPlacement.RefusalsExact | internal/domain/fleet_availability.go:189-221 | each of the four refusals, characterised by the hosts alone |
| HAPlacement.OrderIndependent | internal/domain/fleet_availability.go:174-222 | lists with the same hosts in any order get the same answer |
| HAPlacement.RequireHAPlacement | internal/domain/fleet_availability.go:174-222 | the loops over candidates, regions and domains compute that verdict |
| HostNames.SanitizeSlug | internal/usecase/fleet_orchestrator.go:240-256 | the buffer loop yields the runs of slug characters of the lower-cased text joined by single hyphens |
| HostNames.SlugLaws | internal/usecase/fleet_orchestrator.go:240-256 | the slug of the empty text is empty; one more character that folds to [a-z0-9] appends its folding, after a hyphen if anything was skipped since the last; any other character appends nothing |
| HostNames.SlugIsWellFormed | internal/usecase/fleet_orchestrator.go:238-256 | output in [a-z0-9-], no edge hyphen, no double hyphen |
| HostNames.FixpointsAreSlugs | internal/usecase/fleet_orchestrator.go:240-256 | a text is left alone if and only if it is a well-formed slug |
| HostNames.Idempotent | internal/usecase/fleet_orchestrator.go:240-256 | a slug of a slug is itself |
| HostNames.EmptySlugIff | internal/usecase/fleet_orchestrator.go:240-256 | a slug is empty exactly when the text has no letter or digit to keep |
| HostNames.LabelLegalIff | internal/usecase/fleet_orchestrator.go:228-236 | over any two well-formed slugs, the joined label is legal and within 63 octets exactly when the first is not empty and the second is not empty or the label had to be cut |
| HostNames.LegalLabelIff | internal/domain/resource_endpoint.go:236-255 | a label is legal if and only if it is 1 to 63 characters of [a-z0-9-] with no hyphen at either edge |
| HostNames.FirstLabelLegalIff | internal/usecase/fleet_orchestrator.go:183-208 | the host's first label is legal exactly when the component has a letter or digit and the environment has one or the component's slug alone overflows; unchanged when it fits; never over 63 octets |
| HostNames.HostExact | internal/usecase/fleet_orchestrator.go:206-236 | the host is label, dot, ingress domain; the label is the two slugs around a hyphen within 63 octets, and otherwise its first 54 less the hyphens they end in, a hyphen and the eight hash characters |
| HostNames.SymbolsBreakTheLabel | internal/usecase/fleet_orchestrator.go:206-256 | two inputs, symbols only as component or as environment, whose first label is illegal |
| ResourceEndpoint.NamingAcceptedIff | internal/domain/resource_endpoint.go:81-92 | a naming context is accepted if and only if the region is one legal label and the zone two or more within 253 octets; missing texts are told apart, the zone first |
| ResourceEndpoint.ValidInContext | internal/domain/resource_endpoint.go:81-144 | the region and zone of every valid endpoint form an accepted context |
| ResourceEndpoint.MintNeedsContextAndDraws | internal/domain/resource_endpoint.go:108-130 | nothing is minted without an accepted context, with its error, or without all three draws in range |
| ResourceEndpoint.MintFailsOnlyOnLength | internal/domain/resource_endpoint.go:108-144 | in a valid context with short lowercase words and entropy, a mint fails exactly when the whole name is over 253 octets |
| ResourceEndpoint.IDShapeIff | internal/domain/resource_endpoint.go:174-194 | the minted shape is two non-empty words of a-z and four digits around two hyphens |
| ResourceEndpoint.DistinctDraws | internal/domain/resource_endpoint.go:124-124 | ids are equal exactly when word, word and number are |
| ResourceEndpoint.HostRoundTrip | internal/domain/resource_endpoint.go:159-161 | id, region and zone can be read back off a valid endpoint's hostname |
| ResourceEndpoint.HostInjective | internal/domain/resource_endpoint.go:159-161 | valid endpoints with one hostname are the same endpoint |
| ResourceEndpoint.ValidIff | internal/domain/resource_endpoint.go:132-255 | three parts are accepted exactly when the id has the minted shape, the region is one label, the zone at least two, and the hostname is a legal DNS name |
| ResourceEndpoint.EndpointRefusalsExact | internal/domain/resource_endpoint.go:132-255 | each refusal of three parts, in order: an id that is not minted or no label, a missing or bad region, a missing or bad zone, a name over 253 octets |
| PgWire.PrefixIsSizeIff | internal/usecase/fleet_postgres_probe.go:115-131 | the length prefix equals the message's size exactly while that fits in 32 bits |
| PgWire.StartupRoundTripIff | internal/usecase/fleet_postgres_probe.go:115-131 | a server's decoder recovers user and database exactly when neither has a NUL and the size fits |
| PgWire.StartupMessage | internal/usecase/fleet_postgres_probe.go:115-131 | the appended parameters and the header written in place are that message |
| PgWire.FieldsRoundTrip | internal/usecase/fleet_postgres_probe.go:148-166 | any well-formed field list, terminated, cut inside its next field or just ended, parses to exactly that list |
| PgWire.EveryBodyDecomposes | internal/usecase/fleet_postgres_probe.go:148-166 | every body is the encoding of the fields parsed from it followed by such a remainder |
| PgWire.TruncationKeepsCompleteFields | internal/usecase/fleet_postgres_probe.go:153-155 | cutting a body anywhere keeps exactly the fields of the complete prefix |
| PgWire.LastExact | internal/usecase/fleet_postgres_probe.go:148-166 | the last value of a code is that of a field after which none has the code, and empty when none has it |
| PgWire.ParseErrorBody | internal/usecase/fleet_postgres_probe.go:148-166 | the loop ends on every body with the last S, C and M values of its complete fields |
| PgWire.RefusalIsRead | internal/usecase/fleet_postgres_probe.go:139-168 | a whole ErrorResponse is read as its last severity, SQLSTATE and message exactly when its body is at most 8192 bytes, whatever follows |
| PgWire.AdmitsIff | internal/usecase/fleet_postgres_probe.go:90-107 | the probe admits if and only if a complete header of type R arrived, and finds the type unexpected if and only if it is neither R nor E |
| PgWire.RefusalsExact | internal/usecase/fleet_postgres_probe.go:90-168 | an E header with a length outside 4 to 8196 is implausible, a stream too short for the header or the announced body is unreadable, and exactly a whole body is a refusal |
| PgWire.ReadResponse | internal/usecase/fleet_postgres_probe.go:90-168 | the reads and the parser loop give exactly the reading that AdmitsIff and RefusalIsRead are about |

## Left out

- FleetConvergence.RoundConverges: the passes of a round do not overlap, as two that overlap can overshoot (FleetTight.OverlapReachesBound).
- LeaseVerdicts.FreedOnlyAfterCleanup: the teardown attempt is one call by contract; the booter inside it releases the lease itself, before it removes the jail files and before the reconciler's sweep (internal/infrastructure/firecracker/image_boot.go:696-740), so the order is the reconciler's own.
- The outside's answers to a pass (probes, scheduler, teardown results) are chosen when it lists; as they are arbitrary this fixes nothing but that a row is answered for once.
- A boot's save that the database rejects, as after its app row is gone, enters as a write that does not land. HealthApp lists and probes in one step.
- A DropSystem that fails half way counts as one that left the chain as it was.
- Reconcile and Verify read every table but the lease table from one state; only process liveness changes during the pass, and it only shrinks.
- BootReplica, DecommissionReplica, RefreshHealth, the scheduler and the volume manager enter by contract; their internals are not modelled. A scheduler answer that is not supplied counts as none schedulable.
- Load and list failures at the top of ReconcileApp, which end the pass without effect, and HealthApp beyond its probes.
- ScaleApp, ProvisionApp, SweepIdle, ingress routes beyond their deletion, RequireNetwork, secret and registry tokens: easy steps around the modelled core.
- CIDRWithinFleetSubnet and egress validation: two comparisons beside the modelled address test.
- Assignment of host ordinals, and the ordinal field of the reconcile report.
- The drain sort is specified by a stable insertion order rather than by the library's sorting algorithm.
- The order in which the policy table lists rows of one batch (they share a creation time); rules are compared in the order the resolver reads them.
- sha256 in dnsLabel is any eight hex characters; that two cut labels differ is not claimed.
- Lower-casing is modelled where it can produce an ASCII letter; every other character separates either way.
- Entropy and clocks are parameters; log throttling, condition texts, error texts and gauges have no effect on the modelled state.
- Syscalls, timeouts and partial writes of the probe: the stream is what arrived before the deadline.
