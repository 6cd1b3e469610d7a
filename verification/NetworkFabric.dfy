/** FleetNetworkFabric as it runs on one host: its operations, each stopping where a call fails, are
    the solo runs of the step machine; the resolver's loops compute the compiled rules
    (internal/usecase/fleet_network_fabric.go:104-305, 341-463). */
module NetworkFabric {
  import opened Text
  import opened FleetTypes
  import opened NetPlane
  import opened PolicyCompiler
  import opened FabricRuns
  import opened FabricTombstones
  import opened FabricTeardown

  // ---------------------------------------------------------------- solo runs

  /** One operation running by itself for as many calls as succeed. */
  ghost function Solo(w: World, host: Id, ph: Option<Phase>, view: Id -> Inventory, calls: nat): World
    decreases calls
  {
    if ph.None? || calls == 0 then w
    else
      var (w', ph') := Advance(w, host, ph.value, view(ph.value.n.id));
      Solo(w', host, ph', view, calls - 1)
  }

  ghost function Synced(w: World, host: Id, n: Network, inv: Inventory): World {
    var (slot, rules) := (Slot(host, n.id), Compile(inv, n, PoliciesOf(w, n.id)));
    w.(chains := w.chains[slot := rules], pushed := w.pushed + {Push(slot, rules)})
  }

  /** One successful call. */
  lemma SoloStep(w: World, host: Id, ph: Phase, view: Id -> Inventory, calls: nat)
    requires calls > 0
    ensures Solo(w, host, Some(ph), view, calls)
            == Solo(Advance(w, host, ph, view(ph.n.id)).0, host, Advance(w, host, ph, view(ph.n.id)).1, view, calls - 1)
  {}

  /** syncNetwork is three calls, and only the last one changes anything. */
  lemma SoloSync(w: World, host: Id, n: Network, rest: seq<Network>, view: Id -> Inventory, calls: nat)
    ensures Solo(w, host, Some(Listing(n, rest)), view, calls)
            == if calls < 3 then w else Solo(Synced(w, host, n, view(n.id)), host, NextSync(rest), view, calls - 3)
  {
    hide Compile;
    var ps := PoliciesOf(w, n.id);
    var rules := Compile(view(n.id), n, ps);
    if calls > 0 {
      SoloStep(w, host, Listing(n, rest), view, calls);
    }
    if calls > 1 {
      SoloStep(w, host, Resolving(n, ps, rest), view, calls - 1);
    }
    if calls > 2 {
      SoloStep(w, host, Pushing(n, rules, rest), view, calls - 2);
    }
  }

  ghost function Applied(w: World, host: Id, n: Network, ps: seq<Policy>, inv: Inventory): World {
    var (slot, rules) := (Slot(host, n.id), Compile(inv, n, ps));
    World(w.networks, w.policies[n.id := ps], w.chains[slot := rules], w.pushed + {Push(slot, rules)})
  }

  lemma SoloApply(w: World, host: Id, n: Network, ps: seq<Policy>, view: Id -> Inventory, calls: nat)
    ensures Solo(w, host, Some(Replacing(n, ps)), view, calls)
            == if calls == 0 then w
               else if calls < 3 then w.(policies := w.policies[n.id := ps])
               else Applied(w, host, n, ps, view(n.id))
  {
    hide Compile;
    var w1 := w.(policies := w.policies[n.id := ps]);
    if calls > 0 {
      SoloStep(w, host, Replacing(n, ps), view, calls);
    }
    if calls > 1 {
      SoloStep(w1, host, Resolving(n, ps, []), view, calls - 1);
    }
    if calls > 2 {
      SoloStep(w1, host, Pushing(n, Compile(view(n.id), n, ps), []), view, calls - 2);
    }
  }

  // ---------------------------------------------------------------- solo runs are runs

  ghost function Only(w: World, host: Id, ph: Option<Phase>): System {
    System(w, if ph.Some? then map[0 := Thread(host, ph.value)] else map[])
  }

  /** At no point is an operation under way except operation 0. */
  ghost predicate OneAtATime(s: System, moves: seq<Move>) {
    forall k :: 0 <= k <= |moves| ==> After(s, moves[..k]).threads.Keys <= {0}
  }

  lemma OneAtATimeConcat(s: System, a: seq<Move>, b: seq<Move>)
    requires OneAtATime(s, a) && OneAtATime(After(s, a), b)
    ensures OneAtATime(s, a + b)
  {
    hide After;
    forall k | 0 <= k <= |a + b| ensures After(s, (a + b)[..k]).threads.Keys <= {0} {
      if k <= |a| {
        assert (a + b)[..k] == a[..k];
      } else {
        assert (a + b)[..k] == a + b[..k - |a|];
        AfterConcat(s, a, b[..k - |a|]);
      }
    }
  }

  lemma StepAlone(s: System, m: Move)
    requires s.threads.Keys <= {0} && Do(s, m).threads.Keys <= {0}
    ensures After(s, [m]) == Do(s, m) && OneAtATime(s, [m])
  {
    hide Do;
    OneMove(s, m);
    assert [m][..0] == [] && [m][..1] == [m];
    AfterNone(s, [m][..0]);
    forall k | 0 <= k <= |[m]| ensures After(s, [m][..k]).threads.Keys <= {0} {
      assert k == 0 || k == 1;
    }
  }

  lemma {:induction false} CallsAreMoves(w: World, host: Id, ph: Option<Phase>, view: Id -> Inventory, calls: nat) returns (moves: seq<Move>)
    ensures After(Only(w, host, ph), moves) == System(Solo(w, host, ph, view, calls), map[])
    ensures OneAtATime(Only(w, host, ph), moves)
    decreases calls
  {
    hide Advance;
    var s := Only(w, host, ph);
    if ph.None? || calls == 0 {
      assert Do(s, Stop(0)) == System(w, map[]);
      StepAlone(s, Stop(0));
      return [Stop(0)];
    }
    var m := Go(0, view(ph.value.n.id));
    var (w', ph') := Advance(w, host, ph.value, m.inv);
    assert Do(s, m) == Only(w', host, ph');
    StepAlone(s, m);
    var rest := CallsAreMoves(w', host, ph', view, calls - 1);
    moves := [m] + rest;
    AfterConcat(s, [m], rest);
    OneAtATimeConcat(s, [m], rest);
  }

  /** Operations run one after another, each on any host and stopping after any number of calls, make
      a run in which nothing overlaps: everything proved of such runs holds of them. */
  lemma OperationsInSequence(before: seq<Move>, host: Id, req: Request, view: Id -> Inventory, calls: nat) returns (moves: seq<Move>)
    requires After(INIT, before).threads == map[] && OneAtATime(INIT, before)
    ensures var w := After(INIT, before).w;
            After(INIT, moves) == System(Solo(w, host, Begin(w, req), view, calls), map[])
    ensures OneAtATime(INIT, moves) && forall id :: Peaceful(moves, id)
  {
    hide Begin;
    hide After;
    hide Touches;
    hide Solo;
    var s := After(INIT, before);
    var ph := Begin(s.w, req);
    assert Do(s, Start(0, host, req)) == Only(s.w, host, ph);
    StepAlone(s, Start(0, host, req));
    var rest := CallsAreMoves(s.w, host, ph, view, calls);
    var more := [Start(0, host, req)] + rest;
    moves := before + more;
    AfterConcat(s, [Start(0, host, req)], rest);
    OneAtATimeConcat(s, [Start(0, host, req)], rest);
    AfterConcat(INIT, before, more);
    OneAtATimeConcat(INIT, before, more);
    forall id ensures Peaceful(moves, id) {
      OneAtATimeIsPeaceful(moves, id);
    }
  }

  lemma OneAtATimeIsPeaceful(moves: seq<Move>, id: Id)
    requires OneAtATime(INIT, moves)
    ensures Peaceful(moves, id)
  {
    hide After;
    hide Touches;
  }

  lemma FoundByKey(w: World, systemID: string, env: string, id: Id)
    requires SoundWorld(w) && systemID != "" && id in w.networks && HasKey(w.networks[id], systemID, env)
    ensures FindByKey(w, systemID, env) == Some(w.networks[id])
  {
    hide ValidPolicies;
    hide WellFormedRule;
    assert KeyTaken(w, systemID, env);
  }

  lemma NotFoundByKey(w: World, systemID: string, env: string)
    requires forall id :: id in w.networks ==> !HasKey(w.networks[id], systemID, env)
    ensures FindByKey(w, systemID, env) == None && !KeyTaken(w, systemID, env)
  {}

  /** The row of this (system, env). */
  ghost predicate KeyedAt(w: World, id: Id, systemID: string, env: string) {
    id in w.networks && w.networks[id].systemID == systemID && w.networks[id].env == env
  }

  ghost predicate NobodyAt(w: World, systemID: string, env: string) { forall id :: !KeyedAt(w, id, systemID, env) }

  /** No chain but this host's of these networks is touched. */
  ghost predicate ChangesOnly(before: map<Slot, seq<Rule>>, after: map<Slot, seq<Rule>>, host: Id, nets: seq<Id>) {
    && (forall slot :: slot in before && (slot.host != host || slot.net !in nets) ==> slot in after && after[slot] == before[slot])
    && (forall slot :: slot in after && (slot.host != host || slot.net !in nets) ==> slot in before)
  }

  /** The host's chain of the network is its stored policies, compiled against this view. */
  ghost predicate Restored(w: World, host: Id, id: Id, view: Id -> Inventory) {
    && id in w.networks && Slot(host, id) in w.chains
    && w.chains[Slot(host, id)] == Compile(view(id), w.networks[id], PoliciesOf(w, id))
  }

  lemma SyncRestores(w: World, host: Id, n: Network, view: Id -> Inventory)
    requires n.id in w.networks && w.networks[n.id] == n
    ensures var w' := Synced(w, host, n, view(n.id));
            && Restored(w', host, n.id, view)
            && (forall id :: Restored(w, host, id, view) ==> Restored(w', host, id, view))
  {
    hide Compile;
  }

  lemma SyncChanges(before: map<Slot, seq<Rule>>, w: World, host: Id, n: Network, inv: Inventory, nets: seq<Id>)
    requires ChangesOnly(before, w.chains, host, nets) && n.id in nets
    ensures ChangesOnly(before, Synced(w, host, n, inv).chains, host, nets)
  {
    hide Compile;
  }

  lemma SameChains(chains: map<Slot, seq<Rule>>, host: Id, nets: seq<Id>)
    ensures ChangesOnly(chains, chains, host, nets)
  {}

  ghost predicate Keyed(networks: map<Id, Network>) { forall id :: id in networks ==> networks[id].id == id }

  lemma KeyedRow(networks: map<Id, Network>, id: Id)
    requires Keyed(networks) && id in networks
    ensures networks[id].id == id
  {}

  function Lookup(m: map<string, seq<string>>, c: string): seq<string> {
    if c in m then m[c] else []
  }

  // ---------------------------------------------------------------- the fabric

  /** The fabric of one host. The tables are shared; of the chains, each with the host it is installed
      on, it only ever writes its own host's. */
  class FleetNetworkFabric {
    const selfHost: Id
    var networks: map<Id, Network>
    var policies: map<Id, seq<Policy>>
    var chains: map<Slot, seq<Rule>>
    ghost var pushed: set<Push>

    constructor (selfHost: Id)
      ensures this.selfHost == selfHost && Stored() == EMPTY
    {
      this.selfHost := selfHost;
      networks, policies, chains, pushed := map[], map[], map[], {};
    }

    ghost function Stored(): World
      reads this
    {
      World(networks, policies, chains, pushed)
    }

    method FindBySystemEnv(systemID: string, env: string) returns (found: Option<Network>)
      requires SoundWorld(Stored())
      ensures found == FindByKey(Stored(), systemID, env)
      ensures found.None? && systemID != "" ==> !KeyTaken(Stored(), systemID, env)
      ensures found.Some? ==> found.value.id in networks && networks[found.value.id] == found.value
                              && HasKey(found.value, systemID, env)
      ensures forall id :: KeyedAt(Stored(), id, systemID, env) ==> found == Some(networks[id]) && networks[id].id == id
    {
      hide ValidPolicies;
      hide WellFormedRule;
      hide KeyTaken;
      hide FindByKey;
      forall id | KeyedAt(Stored(), id, systemID, env)
        ensures FindByKey(Stored(), systemID, env) == Some(networks[id]) && networks[id].id == id
      {
        FoundByKey(Stored(), systemID, env, id);
      }
      if systemID == "" {
        assert FindByKey(Stored(), systemID, env) == None by { EmptyKey(Stored(), env); }
        return None;
      }
      var todo := networks.Keys;
      while todo != {}
        invariant todo <= networks.Keys
        invariant forall id :: id in networks && id !in todo ==> !HasKey(networks[id], systemID, env)
        decreases todo
      {
        var id :| id in todo;
        todo := todo - {id};
        if HasKey(networks[id], systemID, env) {
          FoundByKey(Stored(), systemID, env, id);
          return Some(networks[id]);
        }
      }
      NotFoundByKey(Stored(), systemID, env);
      return None;
    }

    // -------------------------------------------------------------- the resolver

    /** byComponent. */
    method IndexPeers(peers: seq<Member>) returns (byComponent: map<string, Member>)
      ensures forall c :: c in byComponent <==> LastOf(peers, c).Some?
      ensures forall c :: c in byComponent ==> LastOf(peers, c) == Some(byComponent[c])
    {
      byComponent := map[];
      for i := 0 to |peers|
        invariant forall c :: c in byComponent <==> LastOf(peers[..i], c).Some?
        invariant forall c :: c in byComponent ==> LastOf(peers[..i], c) == Some(byComponent[c])
      {
        byComponent := byComponent[peers[i].component := peers[i]];
        assert peers[..i + 1][..i] == peers[..i];
      }
      assert peers[..|peers|] == peers;
    }

    method LiveOf(guests: seq<Guest>) returns (ips: seq<string>)
      ensures ips == Live(guests)
    {
      hide InFleetSubnet;
      ips := [];
      for j := 0 to |guests|
        invariant ips == Live(guests[..j])
      {
        assert guests[..j + 1][..j] == guests[..j];
        if guests[j].state != Resident || !InFleetSubnet(guests[j].ip) { continue; }
        ips := ips + [guests[j].ip];
      }
      assert guests[..|guests|] == guests;
    }

    /** liveIPs: the components are visited in no particular order. */
    method CollectLive(n: Network, inv: Inventory) returns (liveIPs: map<string, seq<string>>)
      ensures forall c :: Lookup(liveIPs, c) == LiveIPs(inv, n, c)
    {
      hide Live;
      hide LastOf;
      hide Peers;
      var byComponent := IndexPeers(Peers(inv, n));
      liveIPs := map[];
      var todo := byComponent.Keys;
      while todo != {}
        invariant todo <= byComponent.Keys
        invariant forall c :: c !in byComponent || c in todo ==> c !in liveIPs
        invariant forall c :: c in byComponent && c !in todo ==> Lookup(liveIPs, c) == LiveIPs(inv, n, c)
        decreases todo
      {
        var c :| c in todo;
        todo := todo - {c};
        var ips := LiveOf(GuestsOf(inv, byComponent[c].app));
        if ips != [] {
          liveIPs := liveIPs[c := ips];
        }
      }
    }

    method PairUp(p: Policy, srcs: seq<string>, dsts: seq<string>) returns (rules: seq<Rule>)
      ensures rules == CrossRules(p, srcs, dsts)
    {
      rules := [];
      for i := 0 to |srcs|
        invariant rules == CrossRules(p, srcs[..i], dsts)
      {
        ghost var before := rules;
        assert before + PairRules(p, srcs[i], dsts[..0]) == before;
        for j := 0 to |dsts|
          invariant rules == before + PairRules(p, srcs[i], dsts[..j])
        {
          assert dsts[..j + 1][..j] == dsts[..j];
          rules := rules + [Rule(srcs[i], dsts[j], p.protocol, p.port)];
        }
        assert dsts[..|dsts|] == dsts;
        assert srcs[..i + 1][..i] == srcs[..i];
      }
      assert srcs[..|srcs|] == srcs;
    }

    /** resolve: rules and reports for a policy set against the live replicas. */
    method Resolve(n: Network, ps: seq<Policy>, inv: Inventory) returns (rules: seq<Rule>, reports: seq<Report>)
      ensures rules == Compile(inv, n, ps)
      ensures reports == Reports(inv, n, ps)
    {
      hide LiveIPs;
      hide CrossRules;
      var liveIPs := CollectLive(n, inv);
      rules, reports := [], [];
      for i := 0 to |ps|
        invariant rules == Compile(inv, n, ps[..i])
        invariant reports == Reports(inv, n, ps[..i])
      {
        var p := ps[i];
        assert ps[..i + 1][..i] == ps[..i];
        var srcs, dsts := Lookup(liveIPs, p.from), Lookup(liveIPs, p.to);
        if |srcs| == 0 || |dsts| == 0 {
          assert RulesOf(inv, n, p) == [] by { CrossCount(p, srcs, dsts); }
          var missing := if |srcs| == 0 then p.from else p.to;
          reports := reports + [Report(p.from, p.to, p.port, Advisory, Some(missing))];
          continue;
        }
        var emitted := PairUp(p, srcs, dsts);
        rules := rules + emitted;
        reports := reports + [Report(p.from, p.to, p.port, Enforced, None)];
      }
      assert ps[..|ps|] == ps;
    }

    method AggregateTier(reports: seq<Report>) returns (tier: Tier)
      ensures tier == Aggregate(reports)
    {
      assert reports[0..] == reports;
      for i := 0 to |reports|
        invariant Aggregate(reports) == Aggregate(reports[i..])
      {
        assert reports[i..][0] == reports[i] && reports[i..][1..] == reports[i + 1..];
        if reports[i].tier != Enforced { return reports[i].tier; }
      }
      return Enforced;
    }

    // -------------------------------------------------------------- the operations

    /** SyncSystem: the whole chain is rebuilt. */
    method SyncSystem(id: Id, rules: seq<Rule>)
      modifies this`chains, this`pushed
      ensures chains == old(chains)[Slot(selfHost, id) := rules] && pushed == old(pushed) + {Push(Slot(selfHost, id), rules)}
    {
      chains := chains[Slot(selfHost, id) := rules];
      pushed := pushed + {Push(Slot(selfHost, id), rules)};
    }

    /** syncNetwork, with room for this many successful calls. */
    method SyncNetwork(n: Network, inv: Inventory, calls: nat) returns (done: bool)
      modifies this`chains, this`pushed
      ensures done <==> calls >= 3
      ensures Stored() == if calls < 3 then old(Stored()) else Synced(old(Stored()), selfHost, n, inv)
    {
      if calls < 1 { return false; }
      var ps := if n.id in policies then policies[n.id] else [];
      if calls < 2 { return false; }
      var rules, _ := Resolve(n, ps, inv);
      if calls < 3 { return false; }
      SyncSystem(n.id, rules);
      return true;
    }

    /** EnsureNetwork: create, return or revive the scope of a (system, env). Success hands back the
        one row of that key, active, owned by the caller's organisation, with its chain installed. It
        succeeds exactly when the request is complete, a row of that key belongs to that organisation or
        there is none, and enough calls go through: three for an active row, two more to revive one, one
        more to create one. */
    method EnsureNetwork(posture: bool, systemID: string, env: string, ownerOrg: string, freshId: Id,
                         view: Id -> Inventory, calls: nat) returns (handle: Option<Id>)
      requires SoundWorld(Stored())
      modifies this
      ensures Stored() == Solo(old(Stored()), selfHost, Begin(old(Stored()), Ensure(posture, systemID, env, ownerOrg, freshId)), view, calls)
      ensures handle.Some? ==>
                && handle.value in networks && Slot(selfHost, handle.value) in chains
                && networks[handle.value].systemID == systemID && networks[handle.value].env == env
                && networks[handle.value].ownerOrg == ownerOrg && networks[handle.value].active
      ensures !(posture && systemID != "" && env != "" && ownerOrg != "") ==> handle.None? && Stored() == old(Stored())
      ensures forall id :: KeyedAt(old(Stored()), id, systemID, env) ==>
                var n := old(networks)[id];
                && (n.ownerOrg != ownerOrg ==> handle.None? && Stored() == old(Stored()))
                && (handle.Some? <==> posture && systemID != "" && env != "" && ownerOrg != "" && n.ownerOrg == ownerOrg
                                      && calls >= if n.active then 3 else 5)
                && (handle.Some? ==> && handle.value == id && networks == old(networks)[id := n.(active := true)]
                                     && policies == (if n.active then old(policies) else old(policies)[id := []])
                                     && chains == old(chains)[Slot(selfHost, id) :=
                                          if n.active then Compile(view(id), n, PoliciesOf(old(Stored()), id)) else []])
      ensures NobodyAt(old(Stored()), systemID, env) ==>
                && (handle.Some? <==> posture && systemID != "" && env != "" && ownerOrg != ""
                                      && freshId !in old(networks) && calls >= 4)
                && (handle.Some? ==> && handle.value == freshId && policies == old(policies)
                                     && networks == old(networks)[freshId := Network(freshId, systemID, env, ownerOrg, true)]
                                     && chains == old(chains)[Slot(selfHost, freshId) :=
                                          Compile(view(freshId), Network(freshId, systemID, env, ownerOrg, true), PoliciesOf(old(Stored()), freshId))])
      ensures forall slot :: slot in old(chains) && slot.host != selfHost ==> slot in chains && chains[slot] == old(chains)[slot]
    {
      hide SoundWorld;
      hide Compile;
      hide KeyTaken;
      hide FindByKey;
      hide Solo;
      ghost var w := Stored();
      ghost var start := Begin(w, Ensure(posture, systemID, env, ownerOrg, freshId));
      SoloEnds(w, selfHost, start, view, calls);
      if systemID == "" || env == "" || ownerOrg == "" || !posture { return None; }
      var found := FindBySystemEnv(systemID, env);
      if found.Some? {
        var n := found.value;
        if n.ownerOrg != ownerOrg { return None; }
        if n.active {
          SoloSync(w, selfHost, n, [], view, calls);
          SoloEnds(Synced(w, selfHost, n, view(n.id)), selfHost, None, view, calls);
          var done := SyncNetwork(n, view(n.id), calls);
          return if done then Some(n.id) else None;
        }
        handle := Revive(n, view, calls);
        return;
      }
      handle := CreateScope(Network(freshId, systemID, env, ownerOrg, true), view, calls);
    }

    /** The revive branch: activate the row, clear its policies, install the empty chain. */
    method Revive(n: Network, view: Id -> Inventory, calls: nat) returns (handle: Option<Id>)
      requires n.id in networks && networks[n.id] == n
      modifies this
      ensures Stored() == Solo(old(Stored()), selfHost, Some(Reviving(n)), view, calls)
      ensures handle.Some? <==> calls >= 5
      ensures handle.Some? ==>
                && handle.value == n.id && networks == old(networks)[n.id := n.(active := true)]
                && policies == old(policies)[n.id := []] && chains == old(chains)[Slot(selfHost, n.id) := []]
      ensures forall slot :: slot in old(chains) && slot.host != selfHost ==> slot in chains && chains[slot] == old(chains)[slot]
    {
      hide Compile;
      hide KeyTaken;
      hide Solo;
      var live := n.(active := true);
      SoloEnds(Stored(), selfHost, Some(Reviving(n)), view, calls);
      if calls < 1 { return None; }
      SoloStep(Stored(), selfHost, Reviving(n), view, calls);
      networks := networks[n.id := live];
      SoloEnds(Stored(), selfHost, Some(Wiping(live)), view, calls - 1);
      if calls < 2 { return None; }
      SoloStep(Stored(), selfHost, Wiping(live), view, calls - 1);
      policies := policies[n.id := []];
      SoloSync(Stored(), selfHost, live, [], view, calls - 2);
      assert Compile(view(n.id), live, []) == [] by { NothingCompiled(view(n.id), live); }
      SoloEnds(Synced(Stored(), selfHost, live, view(n.id)), selfHost, None, view, calls);
      var done := SyncNetwork(live, view(n.id), calls - 2);
      return if done then Some(n.id) else None;
    }

    method CreateScope(n: Network, view: Id -> Inventory, calls: nat) returns (handle: Option<Id>)
      requires n.active && !KeyTaken(Stored(), n.systemID, n.env)
      modifies this
      ensures Stored() == Solo(old(Stored()), selfHost, Some(Creating(n)), view, calls)
      ensures handle.Some? <==> n.id !in old(networks) && calls >= 4
      ensures handle.Some? ==>
                && handle.value == n.id && networks == old(networks)[n.id := n] && policies == old(policies)
                && chains == old(chains)[Slot(selfHost, n.id) := Compile(view(n.id), n, PoliciesOf(old(Stored()), n.id))]
      ensures forall slot :: slot in old(chains) && slot.host != selfHost ==> slot in chains && chains[slot] == old(chains)[slot]
    {
      hide Compile;
      hide KeyTaken;
      hide Solo;
      SoloEnds(Stored(), selfHost, Some(Creating(n)), view, calls);
      if calls < 1 { return None; }
      SoloStep(Stored(), selfHost, Creating(n), view, calls);
      SoloEnds(Stored(), selfHost, None, view, calls - 1);
      if n.id in networks { return None; }
      networks := networks[n.id := n];
      SoloSync(Stored(), selfHost, n, [], view, calls - 1);
      SoloEnds(Synced(Stored(), selfHost, n, view(n.id)), selfHost, None, view, calls);
      var done := SyncNetwork(n, view(n.id), calls - 1);
      return if done then Some(n.id) else None;
    }

    /** ApplyPolicies: one invalid policy rejects the whole set before any write. It succeeds exactly when
        the network is active, every policy is valid and three calls go through; then the set is stored
        and compiled into this host's chain of this network, and nothing else has changed. */
    method ApplyPolicies(posture: bool, handle: Id, specs: seq<Policy>, view: Id -> Inventory, calls: nat)
      returns (out: Option<(Tier, seq<Report>)>)
      modifies this
      ensures Stored() == Solo(old(Stored()), selfHost, Begin(old(Stored()), Apply(posture, handle, specs)), view, calls)
      ensures out.Some? ==>
                && handle in old(networks) && ValidPolicies(specs)
                && out.value.1 == Reports(view(old(networks)[handle].id), old(networks)[handle], specs)
                && out.value.0 == Aggregate(out.value.1)
      ensures var accepted := posture && handle in old(networks) && old(networks)[handle].active && ValidPolicies(specs);
              && (out.Some? <==> accepted && calls >= 3)
              && networks == old(networks)
              && (!accepted || calls == 0 ==> Stored() == old(Stored()))
              && (accepted && calls > 0 ==> policies == old(policies)[old(networks)[handle].id := specs])
              && (accepted && calls >= 3 ==>
                    var n := old(networks)[handle];
                    chains == old(chains)[Slot(selfHost, n.id) := Compile(view(n.id), n, specs)])
              && (calls < 3 ==> chains == old(chains))
    {
      hide Compile;
      hide Reports;
      hide Aggregate;
      hide Solo;
      hide Advance;
      ghost var w := Stored();
      SoloEnds(w, selfHost, None, view, calls);
      if !posture || handle !in networks { return None; }
      var n := networks[handle];
      if !n.active { return None; }
      var compiled: seq<Policy> := [];
      for i := 0 to |specs|
        invariant compiled == specs[..i]
        invariant forall k :: 0 <= k < i ==> PolicyProblem(specs[k]).None?
      {
        if PolicyProblem(specs[i]).Some? { return None; }
        compiled := compiled + [specs[i]];
      }
      assert compiled == specs;
      SoloApply(w, selfHost, n, specs, view, calls);
      if calls < 1 { return None; }
      policies := policies[n.id := compiled];
      if calls < 2 { return None; }
      var rules, reports := Resolve(n, compiled, view(n.id));
      if calls < 3 { return None; }
      SyncSystem(n.id, rules);
      var tier := AggregateTier(reports);
      return Some((tier, reports));
    }

    /** Deprovision: chain first, so wherever it stops after its first call this host has none; then
        policies, then the tombstone. A host without the chain refuses. */
    method Deprovision(handle: Id, view: Id -> Inventory, calls: nat) returns (done: bool)
      requires handle in networks ==> networks[handle].id == handle
      modifies this
      ensures Stored() == Solo(old(Stored()), selfHost, Begin(old(Stored()), Request.Deprovision(handle)), view, calls)
      ensures handle in old(networks) && calls > 0 ==> Slot(selfHost, handle) !in chains
      ensures done <==> handle in old(networks) && Slot(selfHost, handle) in old(chains) && calls >= 3
      ensures done ==>
                && networks == old(networks)[handle := old(networks)[handle].(active := false)]
                && policies == old(policies)[handle := []] && chains == old(chains) - {Slot(selfHost, handle)}
      ensures !done ==> networks == old(networks)
    {
      hide Compile;
      hide KeyTaken;
      hide Solo;
      SoloEnds(Stored(), selfHost, None, view, calls);
      if handle !in networks { return false; }
      var n := networks[handle];
      SoloEnds(Stored(), selfHost, Some(Dropping(n)), view, calls);
      if calls < 1 { return false; }
      SoloStep(Stored(), selfHost, Dropping(n), view, calls);
      SoloEnds(Stored(), selfHost, None, view, calls - 1);
      if Slot(selfHost, n.id) !in chains { return false; }
      chains := chains - {Slot(selfHost, n.id)};
      SoloEnds(Stored(), selfHost, Some(Clearing(n)), view, calls - 1);
      if calls < 2 { return false; }
      SoloStep(Stored(), selfHost, Clearing(n), view, calls - 1);
      policies := policies[n.id := []];
      SoloEnds(Stored(), selfHost, Some(Marking(n)), view, calls - 2);
      if calls < 3 { return false; }
      SoloStep(Stored(), selfHost, Marking(n), view, calls - 2);
      networks := networks[n.id := n.(active := false)];
      SoloEnds(Stored(), selfHost, None, view, calls - 3);
      return true;
    }

    /** SyncForApp: a missing or inactive network is left alone, an active one re-realised on this host. */
    method SyncForApp(systemID: string, env: string, view: Id -> Inventory, calls: nat) returns (done: bool)
      requires SoundWorld(Stored())
      modifies this`chains, this`pushed
      ensures Stored() == Solo(old(Stored()), selfHost, Begin(old(Stored()), SyncFor(systemID, env)), view, calls)
      ensures forall id :: KeyedAt(Stored(), id, systemID, env) && networks[id].active ==>
                && (done <==> calls >= 3)
                && chains == if calls < 3 then old(chains)
                             else old(chains)[Slot(selfHost, id) := Compile(view(id), networks[id], PoliciesOf(old(Stored()), id))]
      ensures (forall id :: KeyedAt(Stored(), id, systemID, env) ==> !networks[id].active) ==> done && chains == old(chains)
    {
      hide SoundWorld;
      hide Compile;
      hide KeyTaken;
      hide FindByKey;
      hide Solo;
      SoloEnds(Stored(), selfHost, None, view, calls);
      var found := FindBySystemEnv(systemID, env);
      if found.None? || !found.value.active { return true; }
      SoloSync(Stored(), selfHost, found.value, [], view, calls);
      SoloEnds(Synced(Stored(), selfHost, found.value, view(found.value.id)), selfHost, None, view, calls);
      done := SyncNetwork(found.value, view(found.value.id), calls);
    }

    /** RestoreAll over the active rows in the order the table lists them: it gets through one network for
        every three calls that succeed, and each it gets through has its stored policies, compiled now, as
        this host's chain. Done, every active network has; no other chain changes. */
    method RestoreAll(order: seq<Id>, view: Id -> Inventory, calls: nat) returns (done: bool)
      requires ListsActive(Stored(), order)
      modifies this`chains, this`pushed
      ensures Stored() == Solo(old(Stored()), selfHost, Begin(old(Stored()), Restore(order)), view, calls)
      ensures done <==> calls >= 3 * |order|
      ensures Keyed(networks) ==>
                && (forall i :: 0 <= i < |order| && calls >= 3 * (i + 1) ==> Restored(Stored(), selfHost, order[i], view))
                && (done ==> forall id :: id in networks && networks[id].active ==> Restored(Stored(), selfHost, id, view))
                && ChangesOnly(old(chains), chains, selfHost, order)
    {
      hide Compile;
      hide Solo;
      hide Advance;
      hide Synced;
      hide Restored;
      hide ChangesOnly;
      hide Keyed;
      assert ChangesOnly(chains, chains, selfHost, order) by { SameChains(chains, selfHost, order); }
      var rows := FabricRuns.Rows(World(networks, map[], map[], {}), order);
      assert rows == FabricRuns.Rows(Stored(), order);
      var left := calls;
      ghost var target := Solo(Stored(), selfHost, NextSync(rows), view, calls);
      assert rows[0..] == rows;
      for i := 0 to |rows|
        invariant target == Solo(Stored(), selfHost, NextSync(rows[i..]), view, left)
        invariant networks == old(networks) && policies == old(policies)
        invariant left == calls - 3 * i
        invariant Keyed(networks) ==>
                    && (forall k :: 0 <= k < i ==> Restored(Stored(), selfHost, order[k], view))
                    && ChangesOnly(old(chains), chains, selfHost, order)
      {
        SoloSync(Stored(), selfHost, rows[i], rows[i + 1..], view, left);
        assert rows[i..][0] == rows[i] && rows[i..][1..] == rows[i + 1..];
        ghost var w := Stored();
        assert rows[i] == networks[order[i]] && order[i] in order;
        var ok := SyncNetwork(rows[i], view(rows[i].id), left);
        if !ok { return false; }
        if Keyed(networks) {
          KeyedRow(networks, order[i]);
          SyncRestores(w, selfHost, rows[i], view);
          SyncChanges(old(chains), w, selfHost, rows[i], view(rows[i].id), order);
        }
        left := left - 3;
      }
      SoloEnds(Stored(), selfHost, None, view, left);
      return true;
    }
  }

  lemma SoloEnds(w: World, host: Id, ph: Option<Phase>, view: Id -> Inventory, calls: nat)
    ensures ph.None? || calls == 0 ==> Solo(w, host, ph, view, calls) == w
    ensures forall k: nat :: Solo(w, host, None, view, k) == w
  {}

  lemma NothingCompiled(inv: Inventory, n: Network)
    ensures Compile(inv, n, []) == []
  {}

  lemma EmptyKey(w: World, env: string)
    ensures FindByKey(w, "", env) == None
  {}
}
