/** The lease table with its five unique fences and the Acquire protocol that many hosts
    run against it (internal/usecase/fleet_net_allocator.go:88-198,
    internal/repository/interfaces.go:246-279). One Acquire call is a phase machine that
    alternates between local computation (Next) and one answer of the shared store. */
module LeaseProtocol {
  import opened Text
  import opened NetPlane

  const ACQUIRE_ATTEMPTS: nat := 32

  datatype OwnerKind = Replica | Workload | Unrecognised(name: string)

  datatype NetLease = NetLease(
    id: Id, hostId: Id, at: Coordinates, ownerKind: OwnerKind, ownerId: Id, createdAt: int)

  // ---------------------------------------------------------------- the fences

  predicate Holds(l: NetLease, kind: OwnerKind, owner: Id) {
    l.ownerKind == kind && l.ownerId == owner
  }

  /** Two rows that some unique index of fleet_net_leases keeps apart. */
  predicate Clash(a: NetLease, b: NetLease) {
    || a.at.netIndex == b.at.netIndex
    || (a.hostId == b.hostId
        && (a.at.localSlot == b.at.localSlot || a.at.vmUid == b.at.vmUid || a.at.tapName == b.at.tapName))
    || Holds(a, b.ownerKind, b.ownerId)
  }

  ghost predicate Fenced(table: set<NetLease>) {
    forall a, b :: a in table && b in table && a != b ==> !Clash(a, b)
  }

  predicate Admits(table: set<NetLease>, l: NetLease) {
    forall b :: b in table ==> !Clash(l, b)
  }

  // ---------------------------------------------------------------- one call

  datatype Plane = Plane(wired: bool, selfHost: Id, ordinal: int, uidBase: int, uidSpan: int)

  datatype Call = Call(plane: Plane, kind: OwnerKind, owner: Id)

  datatype AcquireError =
    | NoStore | BadOwnerKind | NilOwner | NoHostIdentity | OrdinalUnset
    | LookupFailed | HeldElsewhere | SlotListFailed | Exhausted
    | OutOfPlane(why: OutOfRange) | UidOutsideSpan | InsertFailed | AttemptsSpent

  type Outcome = Result<NetLease, AcquireError>

  datatype Phase =
    | Looking
    | Listing(tried: set<int>, attempt: nat)
    | Claiming(tried: set<int>, attempt: nat, lease: NetLease)
    | Rechecking(tried: set<int>, attempt: nat, slot: int)
    | Finished(outcome: Outcome)

  /** What the store can answer. Slots also carries the fresh row id and the clock reading
      taken just after it. */
  datatype Answer =
    | Found(held: NetLease)
    | Missing
    | Slots(used: seq<int>, freshId: Id, now: int)
    | Won
    | Conflict
    | Broken

  /** The candidate loop: the least slot from `from` on that is not taken, or 0. */
  function LowestFree(taken: set<int>, from: int): (slot: int)
    requires 1 <= from <= NET_MAX_SLOT + 1
    ensures slot == 0 ==> forall k :: from <= k <= NET_MAX_SLOT ==> k in taken
    ensures slot != 0 ==> from <= slot <= NET_MAX_SLOT && slot !in taken
    ensures slot != 0 ==> forall k :: from <= k < slot ==> k in taken
    decreases NET_MAX_SLOT + 1 - from
  {
    if from > NET_MAX_SLOT then 0
    else if from !in taken then from
    else LowestFree(taken, from + 1)
  }

  function Begin(c: Call): Phase {
    if !c.plane.wired then Finished(Err(NoStore))
    else if c.kind.Unrecognised? then Finished(Err(BadOwnerKind))
    else if c.owner == NIL_ID then Finished(Err(NilOwner))
    else if c.plane.selfHost == NIL_ID then Finished(Err(NoHostIdentity))
    else if c.plane.ordinal < 0 then Finished(Err(OrdinalUnset))
    else Looking
  }

  /** The lease a Listing phase goes on to claim, or the refusal it ends in. */
  function Propose(c: Call, taken: set<int>, freshId: Id, now: int): Outcome {
    var slot := LowestFree(taken, 1);
    if slot == 0 then Err(Exhausted)
    else match Derive(c.plane.ordinal, slot, c.plane.uidBase)
      case Err(why) => Err(OutOfPlane(why))
      case Ok(at) =>
        if at.vmUid >= c.plane.uidBase + c.plane.uidSpan then Err(UidOutsideSpan)
        else Ok(NetLease(freshId, c.plane.selfHost, at, c.kind, c.owner, now))
  }

  function Taken(used: seq<int>, tried: set<int>): set<int> {
    (set s | s in used) + tried
  }

  /** The local computation between two answers of the store. */
  function Next(c: Call, p: Phase, a: Answer): Phase {
    match p
    case Looking =>
      if a.Found? then
        if a.held.hostId != c.plane.selfHost then Finished(Err(HeldElsewhere)) else Finished(Ok(a.held))
      else if a.Missing? then Listing({}, 0)
      else Finished(Err(LookupFailed))
    case Listing(tried, attempt) =>
      if !a.Slots? then Finished(Err(SlotListFailed))
      else
        var proposal := Propose(c, Taken(a.used, tried), a.freshId, a.now);
        if proposal.Ok? then Claiming(tried, attempt, proposal.value) else Finished(proposal)
    case Claiming(tried, attempt, lease) =>
      if a.Won? then Finished(Ok(lease))
      else if a.Conflict? then Rechecking(tried, attempt, lease.at.localSlot)
      else Finished(Err(InsertFailed))
    case Rechecking(tried, attempt, slot) =>
      if a.Found? && a.held.hostId == c.plane.selfHost then Finished(Ok(a.held))
      else if attempt + 1 < ACQUIRE_ATTEMPTS then Listing(tried + {slot}, attempt + 1)
      else Finished(Err(AttemptsSpent))
    case Finished(_) => p
  }

  /** The store's contract for the request phase p makes: a lookup by owner is exact, a slot
      listing is only a hint, and an insert either wins every fence or changes nothing. A
      broken insert may or may not have landed. */
  ghost predicate Served(c: Call, p: Phase, before: set<NetLease>, a: Answer, after: set<NetLease>) {
    match p
    case Looking => LookupServed(c, before, a, after)
    case Rechecking(_, _, _) => LookupServed(c, before, a, after)
    case Listing(_, _) => after == before && (a.Slots? || a.Broken?)
    case Claiming(_, _, lease) =>
      || (a.Won? && Admits(before, lease) && after == before + {lease})
      || (a.Conflict? && !Admits(before, lease) && after == before)
      || (a.Broken? && (after == before || (Admits(before, lease) && after == before + {lease})))
    case Finished(_) => false
  }

  ghost predicate LookupServed(c: Call, before: set<NetLease>, a: Answer, after: set<NetLease>) {
    && after == before
    && (a.Found? || a.Missing? || a.Broken?)
    && (a.Found? ==> a.held in before && Holds(a.held, c.kind, c.owner))
    && (a.Missing? ==> forall l :: l in before ==> !Holds(l, c.kind, c.owner))
  }

  // ---------------------------------------------------------------- logs of one call

  datatype Event = Event(before: set<NetLease>, answer: Answer, after: set<NetLease>)

  ghost function PhaseAfter(c: Call, log: seq<Event>): Phase {
    if log == [] then Begin(c)
    else Next(c, PhaseAfter(c, log[..|log| - 1]), log[|log| - 1].answer)
  }

  /** Every answer in the log obeys the store's contract for the request the call made. */
  ghost predicate WellServed(c: Call, log: seq<Event>) {
    forall i :: 0 <= i < |log| ==>
      Served(c, PhaseAfter(c, log[..i]), log[i].before, log[i].answer, log[i].after)
  }

  lemma LogExtended(c: Call, log: seq<Event>, e: Event)
    requires WellServed(c, log)
    requires Served(c, PhaseAfter(c, log), e.before, e.answer, e.after)
    ensures WellServed(c, log + [e])
    ensures PhaseAfter(c, log + [e]) == Next(c, PhaseAfter(c, log), e.answer)
  {
    var log' := log + [e];
    assert log'[..|log'| - 1] == log;
    forall i | 0 <= i < |log'|
      ensures Served(c, PhaseAfter(c, log'[..i]), log'[i].before, log'[i].answer, log'[i].after)
    {
      assert log'[..i] == if i < |log| then log[..i] else log;
    }
  }

  lemma LogPrefix(c: Call, log: seq<Event>)
    requires WellServed(c, log) && log != []
    ensures WellServed(c, log[..|log| - 1])
  {
    var front := log[..|log| - 1];
    forall i | 0 <= i < |front|
      ensures Served(c, PhaseAfter(c, front[..i]), front[i].before, front[i].answer, front[i].after)
    {
      assert front[..i] == log[..i];
    }
  }

  ghost predicate ForCall(c: Call, l: NetLease) {
    l.hostId == c.plane.selfHost && Holds(l, c.kind, c.owner)
  }

  ghost predicate Claimable(c: Call, l: NetLease) {
    && ForCall(c, l)
    && SelfConsistent(l.at, c.plane.uidBase)
    && l.at.hostOrdinal == c.plane.ordinal
    && l.at.vmUid < c.plane.uidBase + c.plane.uidSpan
  }

  /** What each phase knows; preserved by every answer. */
  ghost predicate PhaseOk(c: Call, p: Phase) {
    match p
    case Looking => true
    case Listing(tried, attempt) => |tried| == attempt < ACQUIRE_ATTEMPTS
    case Claiming(tried, attempt, lease) =>
      |tried| == attempt < ACQUIRE_ATTEMPTS && lease.at.localSlot !in tried && Claimable(c, lease)
    case Rechecking(tried, attempt, slot) => |tried| == attempt < ACQUIRE_ATTEMPTS && slot !in tried
    case Finished(outcome) => outcome.Ok? ==> ForCall(c, outcome.value)
  }

  lemma ProposedLeaseIsClaimable(c: Call, taken: set<int>, freshId: Id, now: int)
    ensures var r := Propose(c, taken, freshId, now);
            r.Ok? ==> Claimable(c, r.value) && r.value.at.localSlot == LowestFree(taken, 1) != 0
  {
    hide Derive;
    var slot := LowestFree(taken, 1);
    DeriveExact(c.plane.ordinal, slot, c.plane.uidBase);
  }

  lemma NextKeepsPhaseOk(c: Call, p: Phase, before: set<NetLease>, a: Answer, after: set<NetLease>)
    requires PhaseOk(c, p) && Served(c, p, before, a, after)
    ensures PhaseOk(c, Next(c, p, a))
    ensures Next(c, p, a).Finished? && Next(c, p, a).outcome.Ok? ==> Next(c, p, a).outcome.value in after
  {
    hide Derive;
    if p.Listing? && a.Slots? {
      ProposedLeaseIsClaimable(c, Taken(a.used, p.tried), a.freshId, a.now);
    }
  }

  lemma {:induction false} LogKeepsPhaseOk(c: Call, log: seq<Event>)
    requires WellServed(c, log)
    ensures PhaseOk(c, PhaseAfter(c, log))
  {
    hide Derive;
    if log != [] {
      var n := |log| - 1;
      LogPrefix(c, log);
      LogKeepsPhaseOk(c, log[..n]);
      NextKeepsPhaseOk(c, PhaseAfter(c, log[..n]), log[n].before, log[n].answer, log[n].after);
    }
  }

  /** A lease an Acquire call returns was in the shared table, for that owner on that host,
      at some answer of the call. */
  lemma ReturnedLeaseWasHeld(c: Call, log: seq<Event>)
    requires WellServed(c, log)
    requires PhaseAfter(c, log).Finished? && PhaseAfter(c, log).outcome.Ok?
    ensures var l := PhaseAfter(c, log).outcome.value;
            ForCall(c, l) && exists i :: 0 <= i < |log| && l in log[i].after
  {
    hide Derive;
    LogKeepsPhaseOk(c, log);
    var n := |log| - 1;
    LogPrefix(c, log);
    LogKeepsPhaseOk(c, log[..n]);
    NextKeepsPhaseOk(c, PhaseAfter(c, log[..n]), log[n].before, log[n].answer, log[n].after);
    assert PhaseAfter(c, log).outcome.value in log[n].after;
  }

  /** The slots of the inserts a call attempted, in order. */
  ghost function InsertedSlots(c: Call, log: seq<Event>): seq<int> {
    if log == [] then []
    else
      var n := |log| - 1;
      var p := PhaseAfter(c, log[..n]);
      InsertedSlots(c, log[..n]) + if p.Claiming? then [p.lease.at.localSlot] else []
  }

  ghost predicate NoDuplicates(s: seq<int>) {
    forall i, j :: 0 <= i < j < |s| ==> s[i] != s[j]
  }

  ghost predicate SlotsAccounted(p: Phase, slots: seq<int>) {
    match p
    case Looking => slots == []
    case Listing(tried, attempt) => |slots| == attempt && forall s :: s in slots <==> s in tried
    case Claiming(tried, attempt, _) => |slots| == attempt && forall s :: s in slots <==> s in tried
    case Rechecking(tried, attempt, slot) => |slots| == attempt + 1 && forall s :: s in slots <==> s in tried || s == slot
    case Finished(_) => |slots| <= ACQUIRE_ATTEMPTS
  }

  ghost predicate AnswersAccounted(p: Phase, answers: nat) {
    match p
    case Looking => answers == 0
    case Listing(_, n) => answers == 1 + 3 * n
    case Claiming(_, n, _) => answers == 2 + 3 * n
    case Rechecking(_, n, _) => answers == 3 + 3 * n
    case Finished(_) => answers <= 1 + 3 * ACQUIRE_ATTEMPTS
  }

  lemma NextAccounted(c: Call, p: Phase, slots: seq<int>, answers: nat, e: Event)
    requires PhaseOk(c, p) && Served(c, p, e.before, e.answer, e.after)
    requires SlotsAccounted(p, slots) && NoDuplicates(slots) && AnswersAccounted(p, answers)
    ensures var slots' := slots + if p.Claiming? then [p.lease.at.localSlot] else [];
            && SlotsAccounted(Next(c, p, e.answer), slots') && NoDuplicates(slots')
            && AnswersAccounted(Next(c, p, e.answer), answers + 1)
  {
    hide Derive;
    if p.Claiming? {
      var slots' := slots + [p.lease.at.localSlot];
      assert forall i :: 0 <= i < |slots| ==> slots'[i] == slots[i];
    }
  }

  lemma AccountedBounds(c: Call, p: Phase, slots: seq<int>, answers: nat)
    requires PhaseOk(c, p) && SlotsAccounted(p, slots) && AnswersAccounted(p, answers)
    ensures |slots| <= ACQUIRE_ATTEMPTS && answers <= 1 + 3 * ACQUIRE_ATTEMPTS
  {
    hide Derive;
  }

  /** Whatever the reads return, a call makes at most 32 insert attempts and never tries the
      same slot twice; the call is over after at most 97 answers. */
  lemma {:induction false} AttemptsAreBoundedAndDistinct(c: Call, log: seq<Event>)
    requires WellServed(c, log)
    ensures NoDuplicates(InsertedSlots(c, log)) && |InsertedSlots(c, log)| <= 32
    ensures |log| <= 97
    ensures SlotsAccounted(PhaseAfter(c, log), InsertedSlots(c, log)) && AnswersAccounted(PhaseAfter(c, log), |log|)
  {
    hide Next;
    hide Served;
    hide PhaseOk;
    LogKeepsPhaseOk(c, log);
    if log != [] {
      var n := |log| - 1;
      LogPrefix(c, log);
      AttemptsAreBoundedAndDistinct(c, log[..n]);
      LogKeepsPhaseOk(c, log[..n]);
      NextAccounted(c, PhaseAfter(c, log[..n]), InsertedSlots(c, log[..n]), n, log[n]);
    }
    AccountedBounds(c, PhaseAfter(c, log), InsertedSlots(c, log), |log|);
  }

  // ---------------------------------------------------------------- what a call answers

  lemma LogCut(c: Call, log: seq<Event>, i: nat)
    requires WellServed(c, log) && i <= |log|
    ensures WellServed(c, log[..i])
    ensures i < |log| ==> Served(c, PhaseAfter(c, log[..i]), log[i].before, log[i].answer, log[i].after)
    ensures i < |log| ==> PhaseAfter(c, log[..i + 1]) == Next(c, PhaseAfter(c, log[..i]), log[i].answer)
  {
    hide Served;
    hide Next;
    forall k | 0 <= k < i
      ensures Served(c, PhaseAfter(c, log[..i][..k]), log[..i][k].before, log[..i][k].answer, log[..i][k].after)
    {
      assert log[..i][..k] == log[..k];
    }
    if i < |log| {
      assert log[..i + 1][..i] == log[..i];
    }
  }

  /** Nothing follows the answer that ends a call. */
  lemma EndsThere(c: Call, log: seq<Event>, i: nat)
    requires WellServed(c, log) && i <= |log| && PhaseAfter(c, log[..i]).Finished?
    ensures i == |log|
  {
    LogCut(c, log, i);
  }

  /** The call gets as far as asking the store. */
  ghost predicate Asks(c: Call) {
    c.plane.wired && !c.kind.Unrecognised? && c.owner != 0 && c.plane.selfHost != 0 && c.plane.ordinal >= 0
  }

  /** An owner that already holds a lease: if the table of the first lookup has it on this host, the call
      returns that very lease after this one request; if it has it on another host, the call is
      refused after this one request. No row is inserted either way. */
  lemma HeldLeaseIsReturned(c: Call, log: seq<Event>, l: NetLease)
    requires WellServed(c, log) && Asks(c) && log != [] && !log[0].answer.Broken? && Fenced(log[0].before)
    requires l in log[0].before && l.ownerKind == c.kind && l.ownerId == c.owner
    ensures |log| == 1 && log[0].after == log[0].before
    ensures PhaseAfter(c, log) == Finished(if l.hostId == c.plane.selfHost then Ok(l) else Err(HeldElsewhere))
  {
    assert log[..0] == [];
    LogCut(c, log, 0);
    var a := log[0].answer;
    assert a.Found? && Clash(a.held, l);
    EndsThere(c, log, 1);
    assert log[..1] == log;
  }

  lemma ServedIsRunning(c: Call, p: Phase, e: Event)
    requires Served(c, p, e.before, e.answer, e.after)
    ensures !p.Finished?
  {}

  /** The requests of a call in their order: a lookup, then listing, insert and lookup in turn. */
  lemma RequestOrder(c: Call, log: seq<Event>, i: nat)
    requires WellServed(c, log) && i < |log|
    ensures var p := PhaseAfter(c, log[..i]);
            && (i == 0 ==> p.Looking?) && (i % 3 == 1 ==> p.Listing?) && (i % 3 == 2 ==> p.Claiming?)
            && (i > 0 && i % 3 == 0 ==> p.Rechecking?)
            && (!p.Looking? ==> !p.Finished? && p.attempt == (i - 1) / 3)
  {
    hide PhaseAfter;
    hide InsertedSlots;
    hide Served;
    hide SlotsAccounted;
    LogCut(c, log, i);
    AttemptsAreBoundedAndDistinct(c, log[..i]);
    ServedIsRunning(c, PhaseAfter(c, log[..i]), log[i]);
  }

  lemma RecheckStep(c: Call, p: Phase, e: Event)
    requires p.Rechecking? && Served(c, p, e.before, e.answer, e.after) && Fenced(e.before)
    ensures forall l :: l in e.before && ForCall(c, l) && !e.answer.Broken? ==> Next(c, p, e.answer) == Finished(Ok(l))
    ensures e.answer.Broken? || (forall l :: l in e.before ==> !ForCall(c, l)) ==>
              if p.attempt + 1 >= 32 then Next(c, p, e.answer) == Finished(Err(AttemptsSpent)) else Next(c, p, e.answer).Listing?
  {
    forall l | l in e.before && ForCall(c, l) && !e.answer.Broken? ensures e.answer == Found(l) {
      assert e.answer.Found? && Clash(e.answer.held, l);
    }
  }

  /** The lookup after a conflict: a lease of the owner on this host is returned and ends the call; with
      none, or one elsewhere, the next round begins, up to the thirty-second. */
  lemma RecheckIsAnswered(c: Call, log: seq<Event>, i: nat)
    requires WellServed(c, log) && 0 < i < |log| && i % 3 == 0 && Fenced(log[i].before)
    ensures forall l :: l in log[i].before && ForCall(c, l) && !log[i].answer.Broken? ==>
              |log| == i + 1 && PhaseAfter(c, log) == Finished(Ok(l))
    ensures log[i].answer.Broken? || (forall l :: l in log[i].before ==> !ForCall(c, l)) ==>
              if i >= 96 then |log| == i + 1 && PhaseAfter(c, log) == Finished(Err(AttemptsSpent))
              else PhaseAfter(c, log[..i + 1]).Listing?
  {
    hide PhaseAfter;
    hide WellServed;
    hide Served;
    hide Next;
    hide Fenced;
    hide ForCall;
    LogCut(c, log, i);
    RequestOrder(c, log, i);
    RecheckStep(c, PhaseAfter(c, log[..i]), log[i]);
    if PhaseAfter(c, log[..i + 1]).Finished? {
      EndsThere(c, log, i + 1);
      assert log[..i + 1] == log;
    }
  }

  lemma ProposalIsStamped(c: Call, taken: set<int>, freshId: Id, now: int)
    ensures var r := Propose(c, taken, freshId, now); r.Ok? ==> r.value.id == freshId && r.value.createdAt == now
  {
    hide Derive;
    hide LowestFree;
  }

  lemma ClaimStep(c: Call, p: Phase, e: Event)
    requires p.Listing? && Served(c, p, e.before, e.answer, e.after) && Next(c, p, e.answer).Claiming?
    ensures e.answer.Slots?
    ensures var (l, a) := (Next(c, p, e.answer).lease, e.answer);
            && Next(c, p, e.answer).tried == p.tried
            && l.id == a.freshId && l.createdAt == a.now && Claimable(c, l)
            && 1 <= l.at.localSlot < 1024 && l.at.localSlot < c.plane.uidSpan && l.at.localSlot !in a.used && l.at.localSlot !in p.tried
            && (forall s :: 1 <= s < l.at.localSlot ==> s in a.used || s in p.tried)
  {
    hide Derive;
    hide LowestFree;
    hide Propose;
    hide InPlane;
    var a := e.answer;
    var taken := Taken(a.used, p.tried);
    ProposedLeaseIsClaimable(c, taken, a.freshId, a.now);
    ProposalIsStamped(c, taken, a.freshId, a.now);
    var l := Next(c, p, a).lease;
    assert forall s :: s in taken <==> s in a.used || s in p.tried;
    DeriveExact(l.at.hostOrdinal, l.at.localSlot, c.plane.uidBase);
  }

  /** Every insert a call attempts is of the lowest slot that neither the listing just read nor an earlier
      attempt of the call names, with the coordinates that slot derives on this host. */
  lemma EveryClaimIsLowest(c: Call, log: seq<Event>, i: nat)
    requires WellServed(c, log) && i < |log| && i % 3 == 2
    ensures log[i - 1].answer.Slots? && PhaseAfter(c, log[..i]).Claiming?
    ensures var (l, a, tried) := (PhaseAfter(c, log[..i]).lease, log[i - 1].answer, InsertedSlots(c, log[..i]));
            && l.id == a.freshId && l.createdAt == a.now && l.hostId == c.plane.selfHost
            && l.ownerKind == c.kind && l.ownerId == c.owner && l.at.hostOrdinal == c.plane.ordinal
            && SelfConsistent(l.at, c.plane.uidBase) && l.at.localSlot < c.plane.uidSpan
            && 1 <= l.at.localSlot < 1024 && l.at.localSlot !in a.used && l.at.localSlot !in tried
            && (forall s :: 1 <= s < l.at.localSlot ==> s in a.used || s in tried)
  {
    hide PhaseAfter;
    hide InsertedSlots;
    hide WellServed;
    hide Served;
    hide Next;
    hide SelfConsistent;
    LogCut(c, log, i - 1);
    LogCut(c, log, i);
    RequestOrder(c, log, i - 1);
    RequestOrder(c, log, i);
    AttemptsAreBoundedAndDistinct(c, log[..i]);
    ClaimStep(c, PhaseAfter(c, log[..i - 1]), log[i - 1]);
  }

  lemma EndStep(c: Call, p: Phase, e: Event)
    requires Served(c, p, e.before, e.answer, e.after) && Next(c, p, e.answer).Finished?
    ensures var (a, r) := (e.answer, Next(c, p, e.answer).outcome);
            && (r == Err(LookupFailed) <==> p.Looking? && a.Broken?)
            && (r == Err(HeldElsewhere) <==> p.Looking? && a.Found? && a.held.hostId != c.plane.selfHost)
            && (r == Err(SlotListFailed) <==> p.Listing? && a.Broken?)
            && (r == Err(InsertFailed) <==> p.Claiming? && a.Broken?)
            && (r == Err(Exhausted) <==> p.Listing? && a.Slots? && forall s :: 1 <= s < 1024 ==> s in a.used || s in p.tried)
            && (r == Err(AttemptsSpent) <==> p.Rechecking? && !(a.Found? && a.held.hostId == c.plane.selfHost))
            && (p.Rechecking? && !(a.Found? && a.held.hostId == c.plane.selfHost) ==> p.attempt >= 31)
            && (p.Claiming? && a.Won? ==> r == Ok(p.lease))
            && (r.Ok? <==> a.Won? || (a.Found? && a.held.hostId == c.plane.selfHost))
            && (r.Ok? && a.Found? ==> r == Ok(a.held))
  {
    hide Derive;
    hide LowestFree;
    if p.Listing? && e.answer.Slots? {
      assert forall s :: s in Taken(e.answer.used, p.tried) <==> s in e.answer.used || s in p.tried;
    }
  }

  /** How a call that asked the store can end, from its last answer and how many there were. */
  lemma OutcomeExact(c: Call, log: seq<Event>)
    requires WellServed(c, log) && log != [] && PhaseAfter(c, log).Finished?
    ensures var (n, a, r) := (|log|, log[|log| - 1].answer, PhaseAfter(c, log).outcome);
            && (r == Err(LookupFailed) <==> n == 1 && a.Broken?)
            && (r == Err(HeldElsewhere) <==> n == 1 && a.Found? && a.held.hostId != c.plane.selfHost)
            && (r == Err(SlotListFailed) <==> n % 3 == 2 && a.Broken?)
            && (r == Err(InsertFailed) <==> n % 3 == 0 && a.Broken?)
            && (r == Err(Exhausted) <==>
                  n % 3 == 2 && a.Slots? && forall s :: 1 <= s < 1024 ==> s in a.used || s in InsertedSlots(c, log[..n - 1]))
            && (r == Err(AttemptsSpent) <==> n == 97 && !(a.Found? && a.held.hostId == c.plane.selfHost))
            && (n % 3 == 0 && a.Won? ==> PhaseAfter(c, log[..n - 1]).Claiming? && r == Ok(PhaseAfter(c, log[..n - 1]).lease))
            && (r.Ok? <==> a.Won? || (a.Found? && a.held.hostId == c.plane.selfHost))
            && (r.Ok? && a.Found? ==> r == Ok(a.held))
  {
    hide PhaseAfter;
    hide InsertedSlots;
    hide WellServed;
    hide Served;
    hide Next;
    var n := |log| - 1;
    LogCut(c, log, n);
    RequestOrder(c, log, n);
    AttemptsAreBoundedAndDistinct(c, log);
    AttemptsAreBoundedAndDistinct(c, log[..n]);
    assert log[..n + 1] == log;
    EndStep(c, PhaseAfter(c, log[..n]), log[n]);
  }

  // ---------------------------------------------------------------- exact reads

  ghost predicate ExactSlots(table: set<NetLease>, host: Id, used: seq<int>) {
    forall s :: s in used <==> exists l :: l in table && l.hostId == host && l.at.localSlot == s
  }

  ghost predicate BlockIsOwn(table: set<NetLease>, p: Plane) {
    forall l :: l in table && l.hostId != p.selfHost ==>
      !(p.ordinal * NET_SLOT_STRIDE < l.at.netIndex < (p.ordinal + 1) * NET_SLOT_STRIDE)
  }

  ghost predicate OwnLeasesConsistent(table: set<NetLease>, p: Plane) {
    forall l :: l in table && l.hostId == p.selfHost ==> SelfConsistent(l.at, p.uidBase)
  }

  ghost predicate SlotHeld(table: set<NetLease>, host: Id, s: int) {
    exists l :: l in table && l.hostId == host && l.at.localSlot == s
  }

  /** Some row would stop this lease at a fence other than its slot and its owner. */
  ghost predicate Contested(table: set<NetLease>, l: NetLease) {
    exists b :: b in table && (|| b.at.netIndex == l.at.netIndex
                               || (b.hostId == l.hostId && (b.at.vmUid == l.at.vmUid || b.at.tapName == l.at.tapName)))
  }

  /** With no foreign lease in this host's block and this host's own leases written under its current
      uid base, nothing contests a free slot. */
  lemma CleanBlockIsUncontested(c: Call, table: set<NetLease>, l: NetLease)
    requires Claimable(c, l) && !SlotHeld(table, c.plane.selfHost, l.at.localSlot)
    requires BlockIsOwn(table, c.plane) && OwnLeasesConsistent(table, c.plane)
    ensures !Contested(table, l)
  {
    hide Derive;
    DeriveExact(l.at.hostOrdinal, l.at.localSlot, c.plane.uidBase);
    forall b | b in table && b.hostId == l.hostId
      ensures b.at.netIndex != l.at.netIndex && b.at.vmUid != l.at.vmUid && b.at.tapName != l.at.tapName
    {
      SlotNamesDistinct(l.at, b.at, c.plane.uidBase);
    }
  }

  /** What the first claim of a new owner can end in, given the lowest slot nobody on this host holds
      (0 when all 1023 are held). */
  ghost predicate FirstClaim(c: Call, table: set<NetLease>, slot: int, claim: Phase) {
    if slot == 0 then claim == Finished(Err(Exhausted))
    else if !InPlane(c.plane.ordinal, slot, c.plane.uidBase) then claim.Finished? && claim.outcome.Err? && claim.outcome.error.OutOfPlane?
    else if slot >= c.plane.uidSpan then claim == Finished(Err(UidOutsideSpan))
    else claim.Claiming? && Claimable(c, claim.lease) && claim.lease.at.localSlot == slot
         && (Admits(table, claim.lease) <==> !Contested(table, claim.lease))
  }

  ghost predicate LowestUnheld(table: set<NetLease>, host: Id, slot: int) {
    && 0 <= slot <= NET_MAX_SLOT && (slot > 0 ==> !SlotHeld(table, host, slot))
    && (forall s :: 1 <= s < slot ==> SlotHeld(table, host, s))
    && (slot == 0 ==> forall s :: 1 <= s <= NET_MAX_SLOT ==> SlotHeld(table, host, s))
  }

  /** A new owner and an exact slot listing, on any plane and any table: the call claims the lowest slot
      nobody on this host holds, reports exhaustion exactly when all 1023 are held, refuses a slot
      outside the plane or the uid span, and otherwise wins at once if and only if no row contests the
      lease's net index or, on this host, its uid or TAP. */
  lemma ExactReadsTakeLowestFreeSlot(c: Call, table: set<NetLease>, used: seq<int>, freshId: Id, now: int) returns (slot: int)
    requires Begin(c) == Looking
    requires forall l :: l in table ==> !Holds(l, c.kind, c.owner)
    requires ExactSlots(table, c.plane.selfHost, used)
    ensures LowestUnheld(table, c.plane.selfHost, slot)
    ensures var claim := Next(c, Next(c, Looking, Missing), Slots(used, freshId, now));
            && FirstClaim(c, table, slot, claim)
            && (claim.Claiming? ==> forall a, after :: Served(c, claim, table, a, after) && !a.Broken? ==>
                  && (Contested(table, claim.lease) ==> a == Conflict)
                  && (!Contested(table, claim.lease) ==> a == Won && Next(c, claim, a) == Finished(Ok(claim.lease))))
  {
    hide Derive;
    var host := c.plane.selfHost;
    var taken := Taken(used, {});
    assert forall s :: s in taken <==> SlotHeld(table, host, s);
    slot := LowestFree(taken, 1);
    DeriveExact(c.plane.ordinal, slot, c.plane.uidBase);
    ProposedLeaseIsClaimable(c, taken, freshId, now);
    var claim := Next(c, Next(c, Looking, Missing), Slots(used, freshId, now));
    if claim.Claiming? {
      FreeSlotFences(c, table, claim.lease);
    }
  }

  lemma FreeSlotFences(c: Call, table: set<NetLease>, l: NetLease)
    requires ForCall(c, l) && !SlotHeld(table, c.plane.selfHost, l.at.localSlot)
    requires forall b :: b in table ==> !Holds(b, c.kind, c.owner)
    ensures Admits(table, l) <==> !Contested(table, l)
  {
    forall b | b in table
      ensures Clash(l, b) <==> (|| b.at.netIndex == l.at.netIndex
                                || (b.hostId == l.hostId && (b.at.vmUid == l.at.vmUid || b.at.tapName == l.at.tapName)))
    {
      assert b.hostId == l.hostId ==> b.at.localSlot != l.at.localSlot;
    }
  }

  // ---------------------------------------------------------------- many calls, one table

  datatype Active = Active(call: Call, phase: Phase)

  datatype System = System(table: set<NetLease>, calls: map<nat, Active>)

  datatype Move =
    | Start(start: nat, call: Call)
    | Serve(who: nat, answer: Answer)
    | Crash(crashed: nat)
    | Delete(kind: OwnerKind, owner: Id)

  /** One atomic step of the fleet: a call begins, gets one answer or dies with its process, or
      a release deletes by owner key, whoever holds the row by then. */
  ghost predicate Step(s: System, m: Move, s': System) {
    match m
    case Start(n, call) =>
      n !in s.calls && s' == System(s.table, s.calls[n := Active(call, Begin(call))])
    case Serve(n, a) =>
      && n in s.calls
      && Served(s.calls[n].call, s.calls[n].phase, s.table, a, s'.table)
      && s'.calls == s.calls[n := Active(s.calls[n].call, Next(s.calls[n].call, s.calls[n].phase, a))]
    case Crash(n) => s' == System(s.table, s.calls - {n})
    case Delete(kind, owner) =>
      s'.calls == s.calls && s'.table == set l | l in s.table && !Holds(l, kind, owner)
  }

  ghost predicate IsRun(run: seq<System>, moves: seq<Move>) {
    && |run| == |moves| + 1
    && Fenced(run[0].table) && run[0].calls == map[]
    && forall i :: 0 <= i < |moves| ==> Step(run[i], moves[i], run[i + 1])
  }

  /** A row that some host's own arithmetic produced. */
  ghost predicate Planned(l: NetLease) {
    exists b :: SelfConsistent(l.at, b)
  }

  ghost predicate SystemOk(s: System) {
    Fenced(s.table) && forall n :: n in s.calls ==> PhaseOk(s.calls[n].call, s.calls[n].phase)
  }

  lemma StepKeepsSystemOk(s: System, m: Move, s': System)
    requires SystemOk(s) && Step(s, m, s')
    ensures SystemOk(s')
    ensures forall l :: l in s'.table && l !in s.table ==> Planned(l)
  {
    hide Derive;
    if m.Serve? {
      var c := s.calls[m.who];
      NextKeepsPhaseOk(c.call, c.phase, s.table, m.answer, s'.table);
      if s'.table != s.table {
        assert SelfConsistent(c.phase.lease.at, c.call.plane.uidBase);
      }
    }
  }

  lemma {:induction false} RunKeepsSystemOk(run: seq<System>, moves: seq<Move>, k: nat)
    requires IsRun(run, moves) && k < |run|
    ensures SystemOk(run[k])
    ensures (forall l :: l in run[0].table ==> Planned(l)) ==> forall l :: l in run[k].table ==> Planned(l)
    decreases k
  {
    hide Derive;
    if k > 0 {
      RunKeepsSystemOk(run, moves, k - 1);
      StepKeepsSystemOk(run[k - 1], moves[k - 1], run[k]);
    }
  }

  /** Mutual exclusion over every interleaving: no two rows ever share a net index, a host slot,
      a host uid, a host TAP or an owner; and once every row comes from the plane's arithmetic,
      no two rows ever share an address. */
  lemma NoTwoLeasesCollide(run: seq<System>, moves: seq<Move>, k: nat, a: NetLease, b: NetLease)
    requires IsRun(run, moves) && k < |run|
    requires a in run[k].table && b in run[k].table && a != b
    ensures a.at.netIndex != b.at.netIndex && (a.ownerKind, a.ownerId) != (b.ownerKind, b.ownerId)
    ensures a.hostId == b.hostId ==>
              a.at.localSlot != b.at.localSlot && a.at.vmUid != b.at.vmUid && a.at.tapName != b.at.tapName
    ensures (forall l :: l in run[0].table ==> Planned(l)) ==>
              a.at.guestIP != b.at.guestIP && a.at.hostIP != b.at.hostIP && a.at.guestIP != b.at.hostIP
  {
    hide Derive;
    hide InFleetSubnet;
    hide Quad;
    hide Denotes;
    RunKeepsSystemOk(run, moves, k);
    assert !Clash(a, b);
    if forall l :: l in run[0].table ==> Planned(l) {
      assert Planned(a) && Planned(b);
      var x :| SelfConsistent(a.at, x);
      var y :| SelfConsistent(b.at, y);
      DeriveExact(a.at.hostOrdinal, a.at.localSlot, x);
      DeriveExact(b.at.hostOrdinal, b.at.localSlot, y);
      var (m, n) := (SUBNET_BASE + 4 * a.at.netIndex, SUBNET_BASE + 4 * b.at.netIndex);
      DenotesOneAddress(a.at.guestIP, m + 2, b.at.guestIP, n + 2);
      DenotesOneAddress(a.at.hostIP, m + 1, b.at.hostIP, n + 1);
      DenotesOneAddress(a.at.guestIP, m + 2, b.at.hostIP, n + 1);
    }
  }

  /** Call n was still running just before state i, and is as it is at state k from state i on. */
  ghost predicate FinishedAt(run: seq<System>, n: nat, i: int, k: int)
    requires 0 < i <= k < |run| && n in run[k].calls
  {
    && n in run[i - 1].calls && run[i - 1].calls[n].call == run[k].calls[n].call
    && !run[i - 1].calls[n].phase.Finished?
    && forall m :: i <= m <= k ==> n in run[m].calls && run[m].calls[n] == run[k].calls[n]
  }

  /** Every lease a finished Acquire returned was in the table, for its owner on its host, right after
      the very answer that finished that call, which was still running just before. */
  lemma {:induction false} FinishedAcquireHeldItsLease(run: seq<System>, moves: seq<Move>, k: nat, n: nat)
    requires IsRun(run, moves) && k < |run|
    requires n in run[k].calls && run[k].calls[n].phase.Finished? && run[k].calls[n].phase.outcome.Ok?
    ensures var l := run[k].calls[n].phase.outcome.value;
            && ForCall(run[k].calls[n].call, l)
            && exists i :: 0 < i <= k && l in run[i].table && FinishedAt(run, n, i, k)
    decreases k
  {
    hide Derive;
    RunKeepsSystemOk(run, moves, k);
    var l := run[k].calls[n].phase.outcome.value;
    assert run[0].calls == map[] && k > 0;
    RunKeepsSystemOk(run, moves, k - 1);
    assert Step(run[k - 1], moves[k - 1], run[k]);
    if n in run[k - 1].calls && run[k - 1].calls[n] == run[k].calls[n] {
      FinishedAcquireHeldItsLease(run, moves, k - 1, n);
      var i :| 0 < i <= k - 1 && l in run[i].table && FinishedAt(run, n, i, k - 1);
      assert FinishedAt(run, n, i, k);
    } else {
      var c := run[k - 1].calls[n];
      NextKeepsPhaseOk(c.call, c.phase, run[k - 1].table, moves[k - 1].answer, run[k].table);
      assert l in run[k].table && FinishedAt(run, n, k, k);
    }
  }
}
