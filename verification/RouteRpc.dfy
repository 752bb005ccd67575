/**
 * Run-time edits of the peer and route tables over RPC. Routes live twice, in the table of the
 * operating system and in `ByRoute`, and every edit is a small transaction over the two.
 */
module RouteRpc {
  import opened Common
  import opened Addresses
  import opened PeerTables

  /** A request, and which of the system calls it makes go wrong. */
  datatype Op =
    | RouteAdd(args: seq<string>, applyFails: bool)
    | RouteDel(args: seq<string>, applyFails: bool, removeFails: bool, rollbackFails: bool)
    | RouteShow
    | RouteUnknown(action: string)
    | PeerAdd(name: string, id: string, fails4: bool, fails6: bool)

  datatype Reply = Ok | Refused

  /** `tun` are the routes the operating system has for the device. */
  datatype Node = Node(tables: Tables, tun: set<IPNet>)

  /** Adding a route fails when it exists already, removing one when it does not, or for any reason. */
  function TunAdd(tun: set<IPNet>, n: IPNet, fails: bool): (r: (set<IPNet>, bool)) {
    if fails || n in tun then (tun, true) else (tun + {n}, false)
  }

  function TunDel(tun: set<IPNet>, n: IPNet, fails: bool): (r: (set<IPNet>, bool)) {
    if fails || n !in tun then (tun, true) else (tun - {n}, false)
  }

  function Do(env: Env, s: Node, op: Op): (Node, Reply) {
    match op
    case RouteAdd(args, fails) => DoAdd(env, s, args, fails)
    case RouteDel(args, applyFails, removeFails, rollbackFails) =>
      DoDel(env, s, args, applyFails, removeFails, rollbackFails)
    case RouteShow => (s, Ok)
    case RouteUnknown(_) => (s, Refused)
    case PeerAdd(name, id, fails4, fails6) =>
      if Rejects(env, s.tables.peers, name, id) then (s, Refused)
      else (Admit(env, s, MkPeer(env.decode(id).value, name), fails4, fails6), Ok)
  }

  function DoAdd(env: Env, s: Node, args: seq<string>, fails: bool): (Node, Reply) {
    if |args| != 2 || env.parseCIDR(args[0]).None? || First(s.tables.peers, CLIRef(env, args[1])).None?
    then (s, Refused)
    else
      var n := env.parseCIDR(args[0]).value;
      var (tun', failed) := TunAdd(s.tun, n, fails);
      if failed then (s, Refused)
      else
        var target := First(s.tables.peers, CLIRef(env, args[1])).value;
        (Node(s.tables.(byRoute := s.tables.byRoute[n := target]), tun'), Ok)
  }

  function DoDel(env: Env, s: Node, args: seq<string>, applyFails: bool, removeFails: bool, rollbackFails: bool)
    : (Node, Reply)
  {
    if |args| != 1 || env.parseCIDR(args[0]).None? then (s, Refused)
    else
      var n := env.parseCIDR(args[0]).value;
      var (tun1, failed) := TunDel(s.tun, n, applyFails);
      if failed then (s, Refused)
      else if removeFails then (s.(tun := TunAdd(tun1, n, rollbackFails).0), Refused)
      else (s.(tables := s.tables.(byRoute := s.tables.byRoute - {n}), tun := tun1), Ok)
  }

  predicate Rejects(env: Env, peers: seq<Peer>, name: string, id: string) {
    || name == "" || id == "" || env.decode(id).None?
    || First(peers, HasID(env.decode(id).value)).Some?
    || First(peers, HasName(name)).Some?
  }

  function Admit(env: Env, s: Node, p: Peer, fails4: bool, fails6: bool): Node {
    var tun4 := TunAdd(s.tun, Host4(p), fails4).0;
    Node(Enlist(env, s.tables, p, []), TunAdd(tun4, Host6(p), fails6).0)
  }

  function Run(env: Env, s: Node, ops: seq<Op>): Node {
    if ops == [] then s else Do(env, Run(env, s, ops[..|ops| - 1]), ops[|ops| - 1]).0
  }

  class TunDevice {
    var routes: set<IPNet>

    constructor (routes: set<IPNet>)
      ensures this.routes == routes
    {
      this.routes := routes;
    }

    method AddRoute(n: IPNet, fails: bool) returns (err: bool)
      modifies this
      ensures (routes, err) == TunAdd(old(routes), n, fails)
    {
      err := fails || n in routes;
      if !err {
        routes := routes + {n};
      }
    }

    method DelRoute(n: IPNet, fails: bool) returns (err: bool)
      modifies this
      ensures (routes, err) == TunDel(old(routes), n, fails)
    {
      err := fails || n !in routes;
      if !err {
        routes := routes - {n};
      }
    }
  }

  class Server {
    const config: Config
    const tunDev: TunDevice

    constructor (config: Config, tunDev: TunDevice)
      ensures this.config == config && this.tunDev == tunDev
    {
      this.config := config;
      this.tunDev := tunDev;
    }

    ghost function View(): Node
      reads config, tunDev
    {
      Node(config.View(), tunDev.routes)
    }

    method AddRoute(args: seq<string>, applyFails: bool) returns (reply: Reply)
      modifies config, tunDev
      ensures (View(), reply) == Do(config.env, old(View()), RouteAdd(args, applyFails))
    {
      if |args| != 2 {
        return Refused;
      }
      var network := config.env.parseCIDR(args[0]);
      if network.None? {
        return Refused;
      }
      var target := Find(config.peers, CLIRef(config.env, args[1]));
      if target.None? {
        return Refused;
      }
      var err := tunDev.AddRoute(network.value, applyFails);
      if err {
        return Refused;
      }
      config.byRoute := config.byRoute[network.value := target.value];
      return Ok;
    }

    method DelRoute(args: seq<string>, applyFails: bool, removeFails: bool, rollbackFails: bool) returns (reply: Reply)
      modifies config, tunDev
      ensures (View(), reply) == Do(config.env, old(View()), RouteDel(args, applyFails, removeFails, rollbackFails))
    {
      if |args| != 1 {
        return Refused;
      }
      var network := config.env.parseCIDR(args[0]);
      if network.None? {
        return Refused;
      }
      var err := tunDev.DelRoute(network.value, applyFails);
      if err {
        return Refused;
      }
      if removeFails {
        err := tunDev.AddRoute(network.value, rollbackFails); // the outcome is ignored
        return Refused;
      }
      config.byRoute := config.byRoute - {network.value};
      return Ok;
    }

    method AddPeer(name: string, id: string, fails4: bool, fails6: bool) returns (reply: Reply)
      modifies config, tunDev
      ensures (View(), reply) == Do(config.env, old(View()), PeerAdd(name, id, fails4, fails6))
    {
      if name == "" || id == "" {
        return Refused;
      }
      var peerID := config.env.decode(id);
      if peerID.None? {
        return Refused;
      }
      var found := Find(config.peers, HasID(peerID.value));
      if found.Some? {
        return Refused;
      }
      found := Find(config.peers, HasName(name));
      if found.Some? {
        return Refused;
      }
      config.AddPeer(name, peerID.value);
      var newPeer := config.peers[|config.peers| - 1];
      var err := tunDev.AddRoute(Host4(newPeer), fails4); // only warned about
      err := tunDev.AddRoute(Host6(newPeer), fails6);
      return Ok;
    }
  }

  // Agreement of the two route tables

  /** A network in `ByRoute` without a route in the system. */
  predicate Missing(s: Node, n: IPNet) {
    n in s.tables.byRoute && n !in s.tun
  }

  /** An accepted new peer whose host route could not be added, or a delete whose rollback failed. */
  predicate Loses(env: Env, s: Node, op: Op, n: IPNet) {
    match op
    case PeerAdd(name, id, fails4, fails6) =>
      && !Rejects(env, s.tables.peers, name, id) && n !in s.tun
      && var p := MkPeer(env.decode(id).value, name);
         (n == Host4(p) && fails4) || (n == Host6(p) && fails6)
    case RouteDel(args, applyFails, removeFails, rollbackFails) =>
      && |args| == 1 && env.parseCIDR(args[0]) == Some(n) && n in s.tun && n in s.tables.byRoute
      && !applyFails && removeFails && rollbackFails
    case _ => false
  }

  /** An accepted request that adds the route. */
  predicate Repairs(env: Env, s: Node, op: Op, n: IPNet) {
    match op
    case PeerAdd(name, id, fails4, fails6) =>
      && !Rejects(env, s.tables.peers, name, id)
      && var p := MkPeer(env.decode(id).value, name);
         (n == Host4(p) && !fails4) || (n == Host6(p) && !fails6)
    case RouteAdd(args, applyFails) => Do(env, s, op).1.Ok? && env.parseCIDR(args[0]) == Some(n)
    case _ => false
  }

  lemma HostsDiffer(p: Peer)
    requires p == MkPeer(p.id, p.name)
    ensures Host4(p) != Host6(p)
  {
    Addr6Length(p.id);
  }

  lemma Addr6Length(id: Bytes)
    ensures |Addr6(id)| == 16 && |Addr4(id)| == 4
  {
  }

  /** Exactly which requests make a route go missing, and which bring a missing one back. */
  lemma MissingStep(env: Env, s: Node, op: Op, n: IPNet)
    ensures !Missing(s, n) ==> (Missing(Do(env, s, op).0, n) <==> Loses(env, s, op, n))
    ensures Missing(s, n) ==> (!Missing(Do(env, s, op).0, n) <==> Repairs(env, s, op, n))
  {
    if op.PeerAdd? && !Rejects(env, s.tables.peers, op.name, op.id) {
      var p := MkPeer(env.decode(op.id).value, op.name);
      HostsDiffer(p);
      assert Enlist(env, s.tables, p, []).byRoute.Keys == s.tables.byRoute.Keys + {Host4(p)} + {Host6(p)};
    }
  }

  /** Missing after each of the requests from the `j`-th on, which is the one that lost it unless `j` is 0. */
  ghost predicate MissingSince(env: Env, s: Node, ops: seq<Op>, n: IPNet, j: nat) {
    && j <= |ops|
    && (forall l :: j <= l <= |ops| ==> Missing(Run(env, s, ops[..l]), n))
    && (j > 0 ==> !Missing(Run(env, s, ops[..j - 1]), n) && Loses(env, Run(env, s, ops[..j - 1]), ops[j - 1], n))
  }

  /**
   * Over every run of requests with every pattern of failures: a network that is missing in the end has
   * been missing since some point, and that is the start of the run or the moment just after a new
   * peer's route could not be added or a failed delete not be rolled back.
   */
  lemma {:induction false} RunAccounted(env: Env, s: Node, ops: seq<Op>, n: IPNet) returns (j: nat)
    requires Missing(Run(env, s, ops), n)
    ensures MissingSince(env, s, ops, n, j)
  {
    assert ops[..|ops|] == ops;
    if ops == [] {
      return 0;
    }
    var k := |ops| - 1;
    MissingStep(env, Run(env, s, ops[..k]), ops[k], n);
    if Missing(Run(env, s, ops[..k]), n) {
      j := RunAccounted(env, s, ops[..k], n);
      StillMissing(env, s, ops, n, j);
    } else {
      j := |ops|;
    }
  }

  lemma StillMissing(env: Env, s: Node, ops: seq<Op>, n: IPNet, j: nat)
    requires ops != [] && MissingSince(env, s, ops[..|ops| - 1], n, j) && Missing(Run(env, s, ops), n)
    ensures MissingSince(env, s, ops, n, j)
  {
    var front := ops[..|ops| - 1];
    assert ops[..|ops|] == ops;
    assert forall l :: 0 <= l <= |front| ==> front[..l] == ops[..l];
  }

  /**
   * A refused request changes nothing, with one exception: a delete whose rollback failed has lost
   * the system's route and nothing else.
   */
  lemma RefusedChangesNothing(env: Env, s: Node, op: Op)
    requires Do(env, s, op).1.Refused?
    ensures Do(env, s, op).0.tables == s.tables
    ensures Do(env, s, op).0 == s <==>
            !(op.RouteDel? && |op.args| == 1 && env.parseCIDR(op.args[0]).Some?
              && env.parseCIDR(op.args[0]).value in s.tun
              && !op.applyFails && op.removeFails && op.rollbackFails)
  {
    if op.RouteDel? && |op.args| == 1 && env.parseCIDR(op.args[0]).Some? {
      var n := env.parseCIDR(op.args[0]).value;
      if n in s.tun {
        assert s.tun - {n} + {n} == s.tun;
      }
    }
  }

  // Which requests are accepted

  /** A route is added exactly when its network parses and is new, its target is known and the call succeeds. */
  lemma AddAccepted(env: Env, s: Node, args: seq<string>, fails: bool)
    ensures Do(env, s, RouteAdd(args, fails)).1.Ok? <==>
              && |args| == 2 && env.parseCIDR(args[0]).Some? && env.parseCIDR(args[0]).value !in s.tun && !fails
              && exists i :: 0 <= i < |s.tables.peers| && CLIRef(env, args[1])(s.tables.peers[i])
  {
    if |args| == 2 {
      FirstIs(s.tables.peers, CLIRef(env, args[1]));
    }
  }

  /** A route is deleted exactly when its network parses and has a route, and both removals succeed. */
  lemma DelAccepted(env: Env, s: Node, args: seq<string>, applyFails: bool, removeFails: bool, rollbackFails: bool)
    ensures Do(env, s, RouteDel(args, applyFails, removeFails, rollbackFails)).1.Ok? <==>
              && |args| == 1 && env.parseCIDR(args[0]).Some? && env.parseCIDR(args[0]).value in s.tun
              && !applyFails && !removeFails
  {
  }

  /** A peer is added exactly when name and ID are given, the ID decodes, and no peer has either. */
  lemma PeerAccepted(env: Env, s: Node, name: string, id: string, fails4: bool, fails6: bool)
    ensures Do(env, s, PeerAdd(name, id, fails4, fails6)).1.Ok? <==>
              && name != "" && id != "" && env.decode(id).Some?
              && forall i :: 0 <= i < |s.tables.peers| ==>
                   s.tables.peers[i].id != env.decode(id).value && s.tables.peers[i].name != name
  {
    if env.decode(id).Some? {
      FirstIs(s.tables.peers, HasID(env.decode(id).value));
      FirstIs(s.tables.peers, HasName(name));
      TestsAre(s.tables.peers, env.decode(id).value, name);
    }
  }

  lemma TestsAre(peers: seq<Peer>, id: Bytes, name: string)
    ensures forall i :: 0 <= i < |peers| ==>
              (HasID(id)(peers[i]) <==> peers[i].id == id) && (HasName(name)(peers[i]) <==> peers[i].name == name)
  {
  }

  /** A request for the list is accepted and one with another action refused; neither changes anything. */
  lemma OtherRequests(env: Env, s: Node, action: string)
    ensures Do(env, s, RouteShow) == (s, Ok) && Do(env, s, RouteUnknown(action)) == (s, Refused)
  {
  }

  /** An accepted route request leaves the network in both tables, or in neither. */
  lemma AcceptedRoute(env: Env, s: Node, op: Op)
    requires Do(env, s, op).1.Ok? && (op.RouteAdd? || op.RouteDel?)
    ensures |op.args| > 0 && env.parseCIDR(op.args[0]).Some?
    ensures var n := env.parseCIDR(op.args[0]).value;
            var s' := Do(env, s, op).0;
            && (n in s'.tun <==> op.RouteAdd?) && (n in s'.tables.byRoute <==> op.RouteAdd?)
            && (forall m :: m != n ==> (m in s'.tun <==> m in s.tun))
            && (forall m :: m != n ==> (m in s'.tables.byRoute <==> m in s.tables.byRoute))
            && (forall m :: m != n && m in s.tables.byRoute ==> s'.tables.byRoute[m] == s.tables.byRoute[m])
            && (op.RouteAdd? ==>
                  |op.args| == 2 && s'.tables.byRoute[n] in s.tables.peers
                  && First(s.tables.peers, CLIRef(env, op.args[1])) == Some(s'.tables.byRoute[n]))
            && s'.tables.peers == s.tables.peers
  {
    if op.RouteAdd? {
      FirstIs(s.tables.peers, CLIRef(env, op.args[1]));
    }
  }

  // Peers

  ghost predicate Distinct(peers: seq<Peer>) {
    forall i, j :: 0 <= i < j < |peers| ==> peers[i].id != peers[j].id && peers[i].name != peers[j].name
  }

  lemma Admitted(env: Env, s: Node, op: Op)
    requires op.PeerAdd? && Do(env, s, op).1.Ok?
    ensures env.decode(op.id).Some? && op.name != ""
    ensures var p := MkPeer(env.decode(op.id).value, op.name);
            && Do(env, s, op).0.tables == Enlist(env, s.tables, p, [])
            && (forall i :: 0 <= i < |s.tables.peers| ==>
                  s.tables.peers[i].id != p.id && s.tables.peers[i].name != p.name)
  {
    FirstIs(s.tables.peers, HasID(env.decode(op.id).value));
    FirstIs(s.tables.peers, HasName(op.name));
  }

  /** An accepted `AddPeer` appends exactly the peer named in the request, and its addresses are routed. */
  lemma AcceptedPeer(env: Env, s: Node, op: Op)
    requires op.PeerAdd? && Do(env, s, op).1.Ok?
    ensures env.decode(op.id).Some?
    ensures var p := MkPeer(env.decode(op.id).value, op.name);
            var s' := Do(env, s, op).0;
            && s'.tables.peers == s.tables.peers + [p]
            && (forall i :: 0 <= i < |s.tables.peers| ==>
                  s.tables.peers[i].id != p.id && s.tables.peers[i].name != p.name)
            && s'.tables.byRoute.Keys == s.tables.byRoute.Keys + {Host4(p), Host6(p)}
            && s'.tables.byRoute[Host4(p)] == s'.tables.byRoute[Host6(p)] == p
            && s'.tun <= s.tun + {Host4(p), Host6(p)} && s.tun <= s'.tun
            && (!op.fails4 ==> Host4(p) in s'.tun) && (!op.fails6 ==> Host6(p) in s'.tun)
  {
    Admitted(env, s, op);
    var p := MkPeer(env.decode(op.id).value, op.name);
    Addr6Length(p.id);
    assert |Host4(p).ip| == 4 && |Host6(p).ip| == 16;
  }

  /** What every run of requests keeps: distinct IDs and names, and indices that agree with the list. */
  lemma {:induction false} RunKeepsPeers(env: Env, s: Node, ops: seq<Op>)
    requires Indexed(env, s.tables)
    ensures Indexed(env, Run(env, s, ops).tables)
    ensures s.tables.peers <= Run(env, s, ops).tables.peers
    ensures Distinct(s.tables.peers) ==> Distinct(Run(env, s, ops).tables.peers)
  {
    if ops != [] {
      RunKeepsPeers(env, s, ops[..|ops| - 1]);
      DoKeepsPeers(env, Run(env, s, ops[..|ops| - 1]), ops[|ops| - 1]);
    }
  }

  lemma DoKeepsPeers(env: Env, s: Node, op: Op)
    requires Indexed(env, s.tables)
    ensures Indexed(env, Do(env, s, op).0.tables)
    ensures s.tables.peers <= Do(env, s, op).0.tables.peers
    ensures Distinct(s.tables.peers) ==> Distinct(Do(env, s, op).0.tables.peers)
  {
    if op.PeerAdd? && Do(env, s, op).1.Ok? {
      EnlistIndexed(env, s.tables, env.decode(op.id).value, op.name, []);
      Admitted(env, s, op);
    }
    StaysDistinct(env, s, op);
  }

  lemma StaysDistinct(env: Env, s: Node, op: Op)
    ensures Distinct(s.tables.peers) ==> Distinct(Do(env, s, op).0.tables.peers)
  {
    if op.PeerAdd? && Do(env, s, op).1.Ok? {
      Admitted(env, s, op);
    }
  }

  /** From the file to any point of the run: the indices agree with the list of peers. */
  lemma LoadedRunIndexed(env: Env, confs: seq<PeerConf>, tun: set<IPNet>, ops: seq<Op>)
    requires Load(env, confs).Loaded?
    ensures Indexed(env, Run(env, Node(Load(env, confs).tables, tun), ops).tables)
  {
    LoadIndexed(env, confs);
    RunKeepsPeers(env, Node(Load(env, confs).tables, tun), ops);
  }

  /**
   * Names are compared exactly but indexed in lower case: a name in the index keeps its peer if and only
   * if the accepted name differs from it in more than case.
   */
  lemma NamesShadow(env: Env, s: Node, op: Op, k: string)
    requires Indexed(env, s.tables) && op.PeerAdd? && Do(env, s, op).1.Ok? && k in s.tables.byName
    ensures var s' := Do(env, s, op).0;
            && k in s'.tables.byName
            && (s'.tables.byName[k] == s.tables.byName[k] <==> env.lower(op.name) != k)
            && (env.lower(op.name) == k ==> s'.tables.byName[k].name == op.name != s.tables.byName[k].name)
  {
    Admitted(env, s, op);
    var i: nat :| LastAt(s.tables.peers, i, NameKey(env), k) && s.tables.peers[i] == s.tables.byName[k];
  }

  /** With a peer "A" configured, the peer "a" is accepted and takes over the key of both. */
  lemma ShadowedName(env: Env, x: Bytes, y: Bytes, tun: set<IPNet>)
    requires env.lower("A") == env.lower("a") == "a"
    requires env.decode("x") == Some(x) && env.decode("y") == Some(y) && x != y
    ensures var start := Load(env, [PeerConf("x", "A", [])]);
            && start.Loaded? && "a" in start.tables.byName && start.tables.byName["a"] == MkPeer(x, "A")
            && var (s, reply) := Do(env, Node(start.tables, tun), PeerAdd("a", "y", false, false));
            && reply.Ok? && "a" in s.tables.byName && s.tables.byName["a"] == MkPeer(y, "a")
            && MkPeer(x, "A") in s.tables.peers
  {
    var conf := PeerConf("x", "A", []);
    assert [conf][..0] == [];
    assert Load(env, [conf]) == LoadNext(env, NO_PEERS, conf);
    var t := Load(env, [conf]).tables;
    assert t.peers == [MkPeer(x, "A")];
    FirstIs(t.peers, HasID(y));
    FirstIs(t.peers, HasName("a"));
    assert "a"[0] != "A"[0];
  }
}
