/** From component edges to address rules: what the fabric's resolver computes and when it claims
    enforcement (internal/usecase/fleet_network_fabric.go:364-463). */
module PolicyCompiler {
  import opened Text
  import opened FleetTypes
  import opened NetPlane

  const TCP: string := "tcp"
  const MAX_PORT: int := 65535

  datatype Network = Network(id: Id, systemID: string, env: string, ownerOrg: string, active: bool)

  datatype Policy = Policy(from: string, to: string, protocol: string, port: int)

  datatype Rule = Rule(src: string, dst: string, protocol: string, port: int)

  /** An app row, as far as network membership goes. */
  datatype Member = Member(app: Id, component: string, systemID: string, env: string, ownerOrg: string)

  datatype Guest = Guest(state: ReplicaState, ip: string)

  /** What the app and replica tables answer while a policy set is being resolved. */
  datatype Inventory = Inventory(apps: seq<Member>, guests: map<Id, seq<Guest>>)

  datatype Tier = Enforced | Advisory

  datatype Report = Report(from: string, to: string, port: int, tier: Tier, missing: Option<string>)

  datatype PolicyError = InvalidPolicy | UnsupportedProtocol

  /** FleetNetworkPolicy.Validate. */
  function PolicyProblem(p: Policy): Option<PolicyError> {
    if p.from == "" || p.to == "" then Some(InvalidPolicy)
    else if p.protocol != TCP then Some(UnsupportedProtocol)
    else if p.port <= 0 || p.port > MAX_PORT then Some(InvalidPolicy)
    else None
  }

  /** A policy is accepted exactly when it names both ends and is tcp on a port 1 to 65535; a wrong
      protocol is told apart from the rest. */
  lemma PolicyValidIff(p: Policy)
    ensures PolicyProblem(p).None? <==> p.from != "" && p.to != "" && p.protocol == "tcp" && 1 <= p.port < 65536
    ensures PolicyProblem(p) == Some(UnsupportedProtocol) <==> p.from != "" && p.to != "" && p.protocol != "tcp"
  {}

  predicate ValidPolicies(ps: seq<Policy>) { forall i :: 0 <= i < |ps| ==> PolicyProblem(ps[i]).None? }

  // ---------------------------------------------------------------- membership

  predicate InScope(a: Member, n: Network) {
    a.systemID == n.systemID && a.env == n.env && a.ownerOrg == n.ownerOrg
  }

  function Scoped(apps: seq<Member>, n: Network): (out: seq<Member>)
    ensures forall a :: a in out <==> a in apps && InScope(a, n)
  {
    if apps == [] then []
    else
      var k := |apps| - 1;
      Scoped(apps[..k], n) + if InScope(apps[k], n) then [apps[k]] else []
  }

  /** ListBySystemEnv: an empty system or organisation names nobody. */
  function Peers(inv: Inventory, n: Network): seq<Member> {
    if n.systemID == "" || n.ownerOrg == "" then [] else Scoped(inv.apps, n)
  }

  /** byComponent: when two listed apps carry one component id, the later one wins. */
  function LastOf(apps: seq<Member>, component: string): (out: Option<Member>)
    ensures out.Some? ==> out.value in apps && out.value.component == component
    ensures out.None? ==> forall a :: a in apps ==> a.component != component
  {
    if apps == [] then None
    else
      var k := |apps| - 1;
      if apps[k].component == component then Some(apps[k]) else LastOf(apps[..k], component)
  }

  lemma {:induction false} LastOfIsLast(apps: seq<Member>, component: string)
    requires LastOf(apps, component).Some?
    ensures exists i :: 0 <= i < |apps| && LastOf(apps, component) == Some(apps[i])
                        && forall j :: i < j < |apps| ==> apps[j].component != component
  {
    var k := |apps| - 1;
    if apps[k].component != component {
      LastOfIsLast(apps[..k], component);
      assert forall i :: 0 <= i < k ==> apps[..k][i] == apps[i];
    }
  }

  function GuestsOf(inv: Inventory, app: Id): seq<Guest> {
    if app in inv.guests then inv.guests[app] else []
  }

  predicate Serving(g: Guest) { g.state == Resident && InFleetSubnet(g.ip) }

  function Live(gs: seq<Guest>): (out: seq<string>)
    ensures forall ip :: ip in out <==> exists g :: g in gs && Serving(g) && g.ip == ip
  {
    if gs == [] then []
    else
      var k := |gs| - 1;
      assert gs == gs[..k] + [gs[k]];
      Live(gs[..k]) + if Serving(gs[k]) then [gs[k].ip] else []
  }

  function LiveIPs(inv: Inventory, n: Network, component: string): seq<string> {
    var a := LastOf(Peers(inv, n), component);
    if a.None? then [] else Live(GuestsOf(inv, a.value.app))
  }

  // ---------------------------------------------------------------- rules and reports

  function PairRules(p: Policy, src: string, dsts: seq<string>): (out: seq<Rule>)
    ensures |out| == |dsts| && forall i :: 0 <= i < |dsts| ==> out[i] == Rule(src, dsts[i], p.protocol, p.port)
  {
    if dsts == [] then []
    else PairRules(p, src, dsts[..|dsts| - 1]) + [Rule(src, dsts[|dsts| - 1], p.protocol, p.port)]
  }

  function CrossRules(p: Policy, srcs: seq<string>, dsts: seq<string>): seq<Rule> {
    if srcs == [] then []
    else CrossRules(p, srcs[..|srcs| - 1], dsts) + PairRules(p, srcs[|srcs| - 1], dsts)
  }

  function RulesOf(inv: Inventory, n: Network, p: Policy): seq<Rule> {
    CrossRules(p, LiveIPs(inv, n, p.from), LiveIPs(inv, n, p.to))
  }

  function Compile(inv: Inventory, n: Network, ps: seq<Policy>): seq<Rule> {
    if ps == [] then [] else Compile(inv, n, ps[..|ps| - 1]) + RulesOf(inv, n, ps[|ps| - 1])
  }

  function ReportOf(inv: Inventory, n: Network, p: Policy): Report {
    var (srcs, dsts) := (LiveIPs(inv, n, p.from), LiveIPs(inv, n, p.to));
    if srcs == [] then Report(p.from, p.to, p.port, Advisory, Some(p.from))
    else if dsts == [] then Report(p.from, p.to, p.port, Advisory, Some(p.to))
    else Report(p.from, p.to, p.port, Enforced, None)
  }

  function Reports(inv: Inventory, n: Network, ps: seq<Policy>): seq<Report> {
    if ps == [] then [] else Reports(inv, n, ps[..|ps| - 1]) + [ReportOf(inv, n, ps[|ps| - 1])]
  }

  /** aggregateTier: the weakest tier; an empty set is fully enforced. */
  function Aggregate(reports: seq<Report>): Tier {
    if reports == [] then Enforced
    else if reports[0].tier != Enforced then reports[0].tier
    else Aggregate(reports[1..])
  }

  // ---------------------------------------------------------------- exactness

  /** The unique index on (component, env, organisation) of the app table. */
  ghost predicate UniqueComponents(inv: Inventory) {
    forall a, b :: a in inv.apps && b in inv.apps && a.component == b.component && a.env == b.env && a.ownerOrg == b.ownerOrg
      ==> a == b
  }

  /** The address is that of a resident replica, inside the fleet subnet, of the component's app in
      this network's system, environment and organisation; an empty system or organisation is no
      membership at all. */
  ghost predicate ServesAt(inv: Inventory, n: Network, component: string, ip: string) {
    && n.systemID != "" && n.ownerOrg != "" && FleetAddress(ip)
    && exists a, g :: a in inv.apps && a.component == component
                      && a.systemID == n.systemID && a.env == n.env && a.ownerOrg == n.ownerOrg
                      && a.app in inv.guests && g in inv.guests[a.app] && g.state == Resident && g.ip == ip
  }

  ghost predicate Joins(inv: Inventory, n: Network, p: Policy, r: Rule) {
    && r.protocol == p.protocol && r.port == p.port
    && ServesAt(inv, n, p.from, r.src) && ServesAt(inv, n, p.to, r.dst)
  }

  lemma {:induction false} CrossExact(p: Policy, srcs: seq<string>, dsts: seq<string>, r: Rule)
    ensures r in CrossRules(p, srcs, dsts) <==> r.src in srcs && r.dst in dsts && r.protocol == p.protocol && r.port == p.port
  {
    if srcs != [] {
      var k := |srcs| - 1;
      CrossExact(p, srcs[..k], dsts, r);
      assert srcs == srcs[..k] + [srcs[k]];
      PairExact(p, srcs[k], dsts, r);
    }
  }

  lemma PairExact(p: Policy, src: string, dsts: seq<string>, r: Rule)
    ensures r in PairRules(p, src, dsts) <==> r.src == src && r.dst in dsts && r.protocol == p.protocol && r.port == p.port
  {
    var out := PairRules(p, src, dsts);
    if r.src == src && r.dst in dsts && r.protocol == p.protocol && r.port == p.port {
      var i :| 0 <= i < |dsts| && dsts[i] == r.dst;
      assert out[i] == r;
    }
  }

  /** Whatever the app table holds, a live address of a component is one it serves at. */
  lemma LiveServes(inv: Inventory, n: Network, component: string, ip: string)
    requires ip in LiveIPs(inv, n, component)
    ensures ServesAt(inv, n, component, ip)
  {
    InFleetSubnetIff(ip);
    hide InFleetSubnet;
  }

  /** Every emitted rule is joined by some policy, with or without the unique index. */
  lemma CompileSound(inv: Inventory, n: Network, ps: seq<Policy>, r: Rule)
    requires r in Compile(inv, n, ps)
    ensures exists p :: p in ps && Joins(inv, n, p, r)
  {
    hide LiveIPs;
    hide ServesAt;
    hide Compile;
    CompileMembers(inv, n, ps, r);
    var p :| p in ps && r in RulesOf(inv, n, p);
    CrossExact(p, LiveIPs(inv, n, p.from), LiveIPs(inv, n, p.to), r);
    LiveServes(inv, n, p.from, r.src);
    LiveServes(inv, n, p.to, r.dst);
  }

  /** The live addresses of a component are exactly those it serves at. */
  lemma LiveExact(inv: Inventory, n: Network, component: string, ip: string)
    requires UniqueComponents(inv)
    ensures ip in LiveIPs(inv, n, component) <==> ServesAt(inv, n, component, ip)
  {
    var peers := Peers(inv, n);
    InFleetSubnetIff(ip);
    hide InFleetSubnet;
    if ServesAt(inv, n, component, ip) {
      hide FleetAddress;
      var a, g :| a in inv.apps && a.component == component
                  && a.systemID == n.systemID && a.env == n.env && a.ownerOrg == n.ownerOrg
                  && a.app in inv.guests && g in inv.guests[a.app] && g.state == Resident && g.ip == ip;
      assert Serving(g);
      assert a in peers;
      assert LastOf(peers, component) == Some(a);
    }
  }

  lemma {:induction false} CompileMembers(inv: Inventory, n: Network, ps: seq<Policy>, r: Rule)
    ensures r in Compile(inv, n, ps) <==> exists p :: p in ps && r in RulesOf(inv, n, p)
  {
    hide RulesOf;
    if ps != [] {
      var k := |ps| - 1;
      CompileMembers(inv, n, ps[..k], r);
      assert ps == ps[..k] + [ps[k]];
    }
  }

  lemma RulesOfExact(inv: Inventory, n: Network, p: Policy, r: Rule)
    requires UniqueComponents(inv)
    ensures r in RulesOf(inv, n, p) <==> Joins(inv, n, p, r)
  {
    hide LiveIPs;
    hide ServesAt;
    hide UniqueComponents;
    CrossExact(p, LiveIPs(inv, n, p.from), LiveIPs(inv, n, p.to), r);
    LiveExact(inv, n, p.from, r.src);
    LiveExact(inv, n, p.to, r.dst);
  }

  /** A rule is emitted if and only if some policy joins, on its protocol and port, resident
      in-subnet replicas of same-organisation, same-scope components. */
  lemma CompileExact(inv: Inventory, n: Network, ps: seq<Policy>, r: Rule)
    requires UniqueComponents(inv)
    ensures r in Compile(inv, n, ps) <==> exists p :: p in ps && Joins(inv, n, p, r)
  {
    hide RulesOf;
    hide Joins;
    hide UniqueComponents;
    CompileMembers(inv, n, ps, r);
    forall p ensures r in RulesOf(inv, n, p) <==> Joins(inv, n, p, r) {
      RulesOfExact(inv, n, p, r);
    }
  }

  lemma {:induction false} CrossCount(p: Policy, srcs: seq<string>, dsts: seq<string>)
    ensures |CrossRules(p, srcs, dsts)| == |srcs| * |dsts|
  {
    if srcs != [] {
      CrossCount(p, srcs[..|srcs| - 1], dsts);
    }
  }

  lemma {:induction false} ReportsAre(inv: Inventory, n: Network, ps: seq<Policy>)
    ensures |Reports(inv, n, ps)| == |ps|
    ensures forall i :: 0 <= i < |ps| ==> Reports(inv, n, ps)[i] == ReportOf(inv, n, ps[i])
  {
    hide ReportOf;
    if ps != [] {
      ReportsAre(inv, n, ps[..|ps| - 1]);
    }
  }

  /** A policy emits one rule for each pair of live addresses. Its report repeats its ends and port, says
      enforced exactly when there is such a pair, and otherwise names the end at which nothing serves:
      the source when both are missing. */
  lemma TierExact(inv: Inventory, n: Network, p: Policy)
    ensures var report := ReportOf(inv, n, p);
            && report.from == p.from && report.to == p.to && report.port == p.port
            && |RulesOf(inv, n, p)| == |LiveIPs(inv, n, p.from)| * |LiveIPs(inv, n, p.to)|
            && (report.tier == Enforced <==> exists r :: r in RulesOf(inv, n, p))
            && (report.tier == Enforced <==> report.missing.None?)
            && (report.missing.Some? ==> LiveIPs(inv, n, report.missing.value) == [])
            && (LiveIPs(inv, n, p.from) == [] ==> report.missing == Some(p.from))
            && (LiveIPs(inv, n, p.from) != [] && LiveIPs(inv, n, p.to) == [] ==> report.missing == Some(p.to))
  {
    var rules := RulesOf(inv, n, p);
    CrossCount(p, LiveIPs(inv, n, p.from), LiveIPs(inv, n, p.to));
    if ReportOf(inv, n, p).tier == Enforced {
      assert |LiveIPs(inv, n, p.from)| * |LiveIPs(inv, n, p.to)| >= 1;
      assert rules[0] in rules;
    } else {
      assert |rules| == 0;
    }
  }

  lemma {:induction false} WeakestTier(reports: seq<Report>)
    ensures Aggregate(reports) == Enforced <==> forall i :: 0 <= i < |reports| ==> reports[i].tier == Enforced
  {
    if reports != [] {
      WeakestTier(reports[1..]);
      assert forall i :: 1 <= i < |reports| ==> reports[i] == reports[1..][i - 1];
    }
  }

  /** The aggregate is enforced exactly when every policy emitted a rule. */
  lemma AggregateExact(inv: Inventory, n: Network, ps: seq<Policy>)
    ensures Aggregate(Reports(inv, n, ps)) == Enforced <==> forall i :: 0 <= i < |ps| ==> RulesOf(inv, n, ps[i]) != []
  {
    hide RulesOf;
    hide ReportOf;
    var reports := Reports(inv, n, ps);
    ReportsAre(inv, n, ps);
    WeakestTier(reports);
    forall i | 0 <= i < |ps| ensures reports[i].tier == Enforced <==> RulesOf(inv, n, ps[i]) != [] {
      TierExact(inv, n, ps[i]);
      assert RulesOf(inv, n, ps[i]) != [] ==> RulesOf(inv, n, ps[i])[0] in RulesOf(inv, n, ps[i]);
    }
  }

  /** A tcp rule on a port 1 to 65535 between two addresses 10.201.x.y. */
  ghost predicate WellFormedRule(r: Rule) {
    r.protocol == "tcp" && 1 <= r.port <= 65535 && FleetAddress(r.src) && FleetAddress(r.dst)
  }

  lemma LiveInSubnet(inv: Inventory, n: Network, component: string, ip: string)
    requires ip in LiveIPs(inv, n, component)
    ensures FleetAddress(ip)
  {
    InFleetSubnetIff(ip);
    hide InFleetSubnet;
  }

  /** Whatever the tables hold, valid policies compile to well-formed rules only. */
  lemma CompileWellFormed(inv: Inventory, n: Network, ps: seq<Policy>)
    requires ValidPolicies(ps)
    ensures forall r :: r in Compile(inv, n, ps) ==> WellFormedRule(r)
  {
    hide FleetAddress;
    hide Compile;
    hide LiveIPs;
    forall r | r in Compile(inv, n, ps) ensures WellFormedRule(r) {
      CompileMembers(inv, n, ps, r);
      var p :| p in ps && r in RulesOf(inv, n, p);
      CrossExact(p, LiveIPs(inv, n, p.from), LiveIPs(inv, n, p.to), r);
      LiveInSubnet(inv, n, p.from, r.src);
      LiveInSubnet(inv, n, p.to, r.dst);
    }
  }
}
