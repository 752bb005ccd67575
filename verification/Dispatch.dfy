/** Where a packet read from the TUN goes: the service network, the tunnel to a peer, or nowhere. */
module Dispatch {
  import opened Common
  import opened Addresses
  import opened PeerTables
  import opened RouteRpc

  /** Capacity of the buffer every packet is read into; bytes past the packet are zero. */
  const CAPACITY: nat := 1420

  datatype Lookup = NoRoute | To(peer: Peer) | Crash

  function Matches(byRoute: map<IPNet, Peer>, ip: Bytes): set<IPNet> {
    set n | n in byRoute && Contains(n, ip)
  }

  /** With more than one match the search panics on a type assertion before it returns. */
  ghost function FindRouteForIP(byRoute: map<IPNet, Peer>, ip: Bytes): Lookup {
    var ms := Matches(byRoute, ip);
    if ms == {} then NoRoute
    else if |ms| > 1 then Crash
    else
      var n :| n in ms;
      To(byRoute[n])
  }

  datatype Decision =
    | Ignored
    | ToServices(addr: Bytes, port: nat)
    | Routed(lookup: Lookup)

  ghost function Decide(self: Bytes, byRoute: map<IPNet, Peer>, packet: Bytes): Decision
    requires |packet| == CAPACITY
  {
    var proto := packet[0] & 0xf0;
    if proto == 0x40 then
      var dst := packet[16..20];
      if dst == Addr4(self) then Ignored else Routed(FindRouteForIP(byRoute, dst))
    else if proto == 0x60 then
      var dst := packet[24..40];
      if dst == Addr6(self) then Ignored
      else if Contains(NETWORK_RANGE, dst) then
        if packet[6] == 6 then ToServices(dst, packet[42] as nat * 256 + packet[43] as nat) else Ignored
      else Routed(FindRouteForIP(byRoute, dst))
    else Ignored
  }

  /** The network of one address. */
  function HostNet(ip: Bytes): IPNet {
    IPNet(ip, CIDRMask(8 * |ip|, 8 * |ip|))
  }

  lemma HostContains(host: Bytes, ip: Bytes)
    ensures Contains(HostNet(host), ip) <==> ip == host
  {
    ContainsPrefix(host, |host|, ip);
    assert host[..|host|] == host;
    if |ip| == |host| {
      assert ip[..|host|] == ip;
    }
  }

  lemma HostsOfPeer(p: Peer)
    requires p == MkPeer(p.id, p.name)
    ensures Host4(p) == HostNet(p.addr4) && Host6(p) == HostNet(p.addr6) && |p.addr4| == 4 && |p.addr6| == 16
  {
  }

  /** Two networks that share an address make the search for it panic. */
  lemma OverlapPanics(byRoute: map<IPNet, Peer>, ip: Bytes)
    ensures FindRouteForIP(byRoute, ip).Crash? <==>
            exists m, n :: m in byRoute && n in byRoute && m != n && Contains(m, ip) && Contains(n, ip)
  {
    var ms := Matches(byRoute, ip);
    if |ms| > 1 {
      var m :| m in ms;
      assert |ms - {m}| > 0;
      var n :| n in ms - {m};
    } else if exists m, n :: m in byRoute && n in byRoute && m != n && Contains(m, ip) && Contains(n, ip) {
      var m, n :| m in byRoute && n in byRoute && m != n && Contains(m, ip) && Contains(n, ip);
      assert {m, n} <= ms;
      Sizes({m, n}, ms);
    }
  }

  lemma Sizes<T>(a: set<T>, b: set<T>)
    requires a <= b
    ensures |a| <= |b|
  {
    assert b == a + (b - a);
  }

  /** The search finds nothing without a match, and the target of the one match if there is one. */
  lemma LookupIs(byRoute: map<IPNet, Peer>, ip: Bytes)
    ensures FindRouteForIP(byRoute, ip).NoRoute? <==> forall n :: n in byRoute ==> !Contains(n, ip)
    ensures FindRouteForIP(byRoute, ip).To? <==>
              exists n :: n in byRoute && Contains(n, ip) && forall m :: m in byRoute && Contains(m, ip) ==> m == n
    ensures forall n :: n in byRoute && Contains(n, ip) && FindRouteForIP(byRoute, ip).To? ==>
              FindRouteForIP(byRoute, ip) == To(byRoute[n])
  {
    var ms := Matches(byRoute, ip);
    OverlapPanics(byRoute, ip);
    if ms == {} {
      forall n | n in byRoute
        ensures !Contains(n, ip)
      {
        assert n !in ms;
      }
    } else if |ms| == 1 {
      var n :| n in ms;
      forall m | m in byRoute && Contains(m, ip)
        ensures m == n
      {
        if m != n {
          Sizes({m, n}, ms);
        }
      }
    }
  }

  // What the route table holds

  /**
   * The table holds the networks that the peers were entered under, `nets[i]` for peer `i`, and nothing
   * else; each leads to the last peer entered under it.
   */
  ghost predicate LastNets(peers: seq<Peer>, nets: seq<set<IPNet>>, byRoute: map<IPNet, Peer>) {
    && |nets| == |peers|
    && (forall n :: n in byRoute ==> exists i: nat :: LastNet(nets, i, n) && byRoute[n] == peers[i])
    && (forall i, n :: 0 <= i < |nets| && n in nets[i] ==> n in byRoute)
  }

  ghost predicate LastNet(nets: seq<set<IPNet>>, i: nat, n: IPNet) {
    i < |nets| && n in nets[i] && forall j :: i < j < |nets| ==> n !in nets[j]
  }

  lemma NetsGrow(peers: seq<Peer>, nets: seq<set<IPNet>>, byRoute: map<IPNet, Peer>,
                 p: Peer, more: set<IPNet>, byRoute': map<IPNet, Peer>)
    requires LastNets(peers, nets, byRoute)
    requires forall n :: n in byRoute' <==> n in byRoute || n in more
    requires forall n :: n in byRoute' ==> byRoute'[n] == if n in more then p else byRoute[n]
    ensures LastNets(peers + [p], nets + [more], byRoute')
  {
    var all := nets + [more];
    forall n | n in byRoute'
      ensures exists i: nat :: LastNet(all, i, n) && byRoute'[n] == (peers + [p])[i]
    {
      if n in more {
        assert LastNet(all, |nets|, n);
      } else {
        var i: nat :| LastNet(nets, i, n) && byRoute[n] == peers[i];
        assert LastNet(all, i, n);
      }
    }
  }

  /** The networks a peer is entered under: routes of its own and its two addresses. */
  function NetsOf(p: Peer, routes: seq<IPNet>): set<IPNet> {
    (set n | n in routes) + {Host4(p), Host6(p)}
  }

  lemma {:induction false} Inserted(m: map<IPNet, Peer>, nets: seq<IPNet>, p: Peer)
    ensures forall n :: n in Insert(m, nets, p) <==> n in m || n in nets
    ensures forall n :: n in Insert(m, nets, p) ==> Insert(m, nets, p)[n] == if n in nets then p else m[n]
  {
    if nets != [] {
      var k := |nets| - 1;
      Inserted(m, nets[..k], p);
      assert nets == nets[..k] + [nets[k]];
    }
  }

  /** One more peer adds its networks and takes over those that earlier peers had. */
  lemma EnlistNets(env: Env, t: Tables, nets: seq<set<IPNet>>, p: Peer, routes: seq<IPNet>)
    requires LastNets(t.peers, nets, t.byRoute)
    ensures LastNets(t.peers + [p], nets + [NetsOf(p, routes)], Enlist(env, t, p, routes).byRoute)
  {
    Inserted(t.byRoute, routes, p);
    NetsGrow(t.peers, nets, t.byRoute, p, NetsOf(p, routes), Enlist(env, t, p, routes).byRoute);
  }

  /** The networks of every peer of a configuration that loads. */
  function ConfNets(env: Env, confs: seq<PeerConf>): seq<set<IPNet>>
    requires Load(env, confs).Loaded?
  {
    if confs == [] then []
    else
      var conf := confs[|confs| - 1];
      ConfNets(env, confs[..|confs| - 1]) +
      [NetsOf(MkPeer(env.decode(conf.id).value, conf.name), ParseAll(env, conf.routes).value)]
  }

  /** Every configuration that loads, with or without routes of its own, is in the table like that. */
  lemma {:induction false} LoadNets(env: Env, confs: seq<PeerConf>)
    requires Load(env, confs).Loaded?
    ensures LastNets(Load(env, confs).tables.peers, ConfNets(env, confs), Load(env, confs).tables.byRoute)
  {
    if confs != [] {
      var n := |confs| - 1;
      LoadNets(env, confs[..n]);
      EnlistNets(env, Load(env, confs[..n]).tables, ConfNets(env, confs[..n]),
                 MkPeer(env.decode(confs[n].id).value, confs[n].name), ParseAll(env, confs[n].routes).value);
    }
  }

  // Where packets for a peer go

  /** Some other network of the table contains the address. */
  ghost predicate Overlapped(byRoute: map<IPNet, Peer>, ip: Bytes) {
    exists m :: m in byRoute && m != HostNet(ip) && Contains(m, ip)
  }

  /** An address with a host route leads to the target of that route, or to a panic if another network contains it. */
  lemma FindHost(byRoute: map<IPNet, Peer>, ip: Bytes)
    requires HostNet(ip) in byRoute
    ensures FindRouteForIP(byRoute, ip) == if Overlapped(byRoute, ip) then Crash else To(byRoute[HostNet(ip)])
  {
    HostContains(ip, ip);
    if Overlapped(byRoute, ip) {
      var m :| m in byRoute && m != HostNet(ip) && Contains(m, ip);
      OverlapPanics(byRoute, ip);
    } else {
      assert Matches(byRoute, ip) == {HostNet(ip)};
    }
  }

  /** Some peer was entered under another network that contains the address. */
  ghost predicate Covering(nets: seq<set<IPNet>>, ip: Bytes) {
    exists j, m :: 0 <= j < |nets| && m in nets[j] && m != HostNet(ip) && Contains(m, ip)
  }

  /** What a search for an address may find: a panic, or the last peer entered under the address itself. */
  ghost predicate Resolves(peers: seq<Peer>, nets: seq<set<IPNet>>, found: Lookup, ip: Bytes)
    requires |nets| == |peers|
  {
    && (found.Crash? <==> Covering(nets, ip))
    && (!found.Crash? ==> exists k: nat :: LastNet(nets, k, HostNet(ip)) && found == To(peers[k]))
  }

  lemma RoutedByHost(peers: seq<Peer>, nets: seq<set<IPNet>>, byRoute: map<IPNet, Peer>, i: nat, ip: Bytes)
    requires LastNets(peers, nets, byRoute) && i < |peers| && HostNet(ip) in nets[i]
    ensures Resolves(peers, nets, FindRouteForIP(byRoute, ip), ip)
    ensures !Covering(nets, ip) && (forall j, k :: 0 <= j < k < |peers| ==> peers[j].id != peers[k].id) ==>
              (FindRouteForIP(byRoute, ip) == To(peers[i]) <==>
               forall j :: i < j < |nets| ==> HostNet(ip) !in nets[j])
  {
    FindHost(byRoute, ip);
    InNets(peers, nets, byRoute, HostNet(ip), ip);
    var k: nat :| LastNet(nets, k, HostNet(ip)) && byRoute[HostNet(ip)] == peers[k];
    if forall j, k :: 0 <= j < k < |peers| ==> peers[j].id != peers[k].id {
      if i < k {
        assert peers[i].id != peers[k].id;
      }
    }
  }

  /**
   * For every table of peers and routes: a packet for a built-in address of a peer makes the search
   * panic if and only if some peer was entered under another network that contains the address;
   * otherwise it is tunnelled to the last peer entered under the address itself. When no ID is listed
   * twice, that is the peer meant if and only if no later peer was.
   */
  lemma RoutedByAddress(peers: seq<Peer>, nets: seq<set<IPNet>>, byRoute: map<IPNet, Peer>, i: nat)
    requires LastNets(peers, nets, byRoute) && i < |peers| && peers[i] == MkPeer(peers[i].id, peers[i].name)
    requires Host4(peers[i]) in nets[i] && Host6(peers[i]) in nets[i]
    ensures Resolves(peers, nets, FindRouteForIP(byRoute, peers[i].addr4), peers[i].addr4)
    ensures Resolves(peers, nets, FindRouteForIP(byRoute, peers[i].addr6), peers[i].addr6)
    ensures var p := peers[i];
            (forall j, k :: 0 <= j < k < |peers| ==> peers[j].id != peers[k].id) ==>
              && (!Covering(nets, p.addr4) ==>
                    (FindRouteForIP(byRoute, p.addr4) == To(p) <==>
                     forall j :: i < j < |nets| ==> Host4(p) !in nets[j]))
              && (!Covering(nets, p.addr6) ==>
                    (FindRouteForIP(byRoute, p.addr6) == To(p) <==>
                     forall j :: i < j < |nets| ==> Host6(p) !in nets[j]))
  {
    HostsOfPeer(peers[i]);
    RoutedByHost(peers, nets, byRoute, i, peers[i].addr4);
    RoutedByHost(peers, nets, byRoute, i, peers[i].addr6);
  }

  lemma InNets(peers: seq<Peer>, nets: seq<set<IPNet>>, byRoute: map<IPNet, Peer>, host: IPNet, ip: Bytes)
    requires LastNets(peers, nets, byRoute)
    ensures (exists m :: m in byRoute && m != host && Contains(m, ip)) <==>
            exists j, m :: 0 <= j < |nets| && m in nets[j] && m != host && Contains(m, ip)
  {
    if exists m :: m in byRoute && m != host && Contains(m, ip) {
      var m :| m in byRoute && m != host && Contains(m, ip);
      var j: nat :| LastNet(nets, j, m) && byRoute[m] == peers[j];
      assert m in nets[j];
    }
  }

  /** Without routes of their own, peers are told apart by their addresses and the search never panics. */
  lemma RoutedWithoutRoutes(peers: seq<Peer>, nets: seq<set<IPNet>>, byRoute: map<IPNet, Peer>, i: nat)
    requires LastNets(peers, nets, byRoute) && i < |peers|
    requires forall j :: 0 <= j < |peers| ==>
               peers[j] == MkPeer(peers[j].id, peers[j].name) && nets[j] == NetsOf(peers[j], [])
    ensures var found := FindRouteForIP(byRoute, peers[i].addr4);
            && found.To? && found.peer in peers && found.peer.addr4 == peers[i].addr4
            && ((forall j, k :: 0 <= j < k < |peers| ==> peers[j].id != peers[k].id) ==>
                  (found == To(peers[i]) <==> forall j :: i < j < |peers| ==> peers[j].addr4 != peers[i].addr4))
    ensures var found := FindRouteForIP(byRoute, peers[i].addr6);
            && found.To? && found.peer in peers && found.peer.addr6 == peers[i].addr6
            && ((forall j, k :: 0 <= j < k < |peers| ==> peers[j].id != peers[k].id) ==>
                  (found == To(peers[i]) <==> forall j :: i < j < |peers| ==> peers[j].addr6 != peers[i].addr6))
  {
    var p := peers[i];
    forall j | 0 <= j < |peers|
      ensures Host4(p) in nets[j] <==> peers[j].addr4 == p.addr4
      ensures Host6(p) in nets[j] <==> peers[j].addr6 == p.addr6
    {
      HostsOnly(peers[j], p);
    }
    NotCovered(peers, nets, p);
    HostsOfPeer(p);
    RoutedByAddress(peers, nets, byRoute, i);
  }

  lemma NotCovered(peers: seq<Peer>, nets: seq<set<IPNet>>, p: Peer)
    requires |nets| == |peers| && p == MkPeer(p.id, p.name)
    requires forall j :: 0 <= j < |peers| ==>
               peers[j] == MkPeer(peers[j].id, peers[j].name) && nets[j] == NetsOf(peers[j], [])
    ensures !Covering(nets, p.addr4) && !Covering(nets, p.addr6)
  {
    forall j, m | 0 <= j < |nets| && m in nets[j]
      ensures Contains(m, p.addr4) ==> m == HostNet(p.addr4)
      ensures Contains(m, p.addr6) ==> m == HostNet(p.addr6)
    {
      OwnAddresses(peers[j], p.addr4);
      OwnAddresses(peers[j], p.addr6);
    }
  }

  lemma HostsOnly(q: Peer, p: Peer)
    requires p == MkPeer(p.id, p.name) && q == MkPeer(q.id, q.name)
    ensures Host4(p) in NetsOf(q, []) <==> q.addr4 == p.addr4
    ensures Host6(p) in NetsOf(q, []) <==> q.addr6 == p.addr6
  {
    HostsOfPeer(p);
    HostsOfPeer(q);
  }

  /** The networks of a peer without routes contain their own addresses only. */
  lemma OwnAddresses(q: Peer, ip: Bytes)
    requires q == MkPeer(q.id, q.name)
    ensures forall m :: m in NetsOf(q, []) && Contains(m, ip) ==> m == HostNet(ip)
  {
    HostsOfPeer(q);
    HostContains(q.addr4, ip);
    HostContains(q.addr6, ip);
  }

  /** A route added at run time makes the search for an address panic exactly when another route contains it too. */
  lemma RouteAddPanics(env: Env, s: Node, op: Op, ip: Bytes)
    requires op.RouteAdd? && RouteRpc.Do(env, s, op).1.Ok?
    requires !FindRouteForIP(s.tables.byRoute, ip).Crash?
    ensures |op.args| == 2 && env.parseCIDR(op.args[0]).Some?
    ensures var n := env.parseCIDR(op.args[0]).value;
            FindRouteForIP(RouteRpc.Do(env, s, op).0.tables.byRoute, ip).Crash? <==>
            Contains(n, ip) && exists m :: m in s.tables.byRoute && m != n && Contains(m, ip)
  {
    var n := env.parseCIDR(op.args[0]).value;
    var byRoute' := RouteRpc.Do(env, s, op).0.tables.byRoute;
    assert byRoute'.Keys == s.tables.byRoute.Keys + {n};
    OverlapPanics(s.tables.byRoute, ip);
    OverlapPanics(byRoute', ip);
  }

  /** So an accepted route that contains the address of a routed peer stops the program at the next packet for it. */
  lemma CoveringRoutePanics(env: Env, s: Node, op: Op, p: Peer)
    requires op.RouteAdd? && RouteRpc.Do(env, s, op).1.Ok? && p == MkPeer(p.id, p.name)
    requires Host4(p) in s.tables.byRoute && env.parseCIDR(op.args[0]) != Some(Host4(p))
    requires Contains(env.parseCIDR(op.args[0]).value, p.addr4)
    ensures FindRouteForIP(RouteRpc.Do(env, s, op).0.tables.byRoute, p.addr4).Crash?
  {
    HostsOfPeer(p);
    HostContains(p.addr4, p.addr4);
    OverlapPanics(RouteRpc.Do(env, s, op).0.tables.byRoute, p.addr4);
  }

  /** The route 100.64.0.0/16 is accepted beside any configured peer, and the next packet for it panics. */
  lemma PanicExample(env: Env, id: Bytes)
    requires env.decode("x") == Some(id)
    requires env.parseCIDR("100.64.0.0/16") == Some(IPNet([100, 64, 0, 0], CIDRMask(16, 32)))
    ensures var start := Load(env, [PeerConf("x", "A", [])]);
            && start.Loaded?
            && var (s, reply) :=
                 RouteRpc.Do(env, Node(start.tables, {}), RouteAdd(["100.64.0.0/16", "@A"], false));
            && reply.Ok? && FindRouteForIP(s.tables.byRoute, Addr4(id)).Crash?
  {
    var conf, op := PeerConf("x", "A", []), RouteAdd(["100.64.0.0/16", "@A"], false);
    OneLoaded(env, id, "x", "A");
    var t := Load(env, [conf]).tables;
    assert "@A"[1..] == "A" && "@" <= "@A";
    CoverAll(id);
    CoveringRoutePanics(env, Node(t, {}), op, MkPeer(id, "A"));
  }

  lemma OneLoaded(env: Env, id: Bytes, code: string, name: string)
    requires env.decode(code) == Some(id)
    ensures Load(env, [PeerConf(code, name, [])]) == Loaded(Enlist(env, NO_PEERS, MkPeer(id, name), []))
    ensures ConfNets(env, [PeerConf(code, name, [])]) == [NetsOf(MkPeer(id, name), [])]
  {
    var confs := [PeerConf(code, name, [])];
    assert confs[..0] == [] && ParseAll(env, []) == Some([]);
    assert ConfNets(env, confs) == ConfNets(env, []) + [NetsOf(MkPeer(id, name), [])];
  }

  /** The network 100.64.0.0/16 contains the IPv4 address of every peer ID. */
  lemma CoverAll(id: Bytes)
    ensures Contains(IPNet([100, 64, 0, 0], CIDRMask(16, 32)), Addr4(id))
    ensures CIDRMask(16, 32) != CIDRMask(32, 32)
  {
    ContainsPrefix([100, 64, 0, 0], 2, Addr4(id));
    assert Addr4(id)[..2] == [100, 64] == [100, 64, 0, 0][..2];
    assert CIDRMask(16, 32)[2] == 0 && CIDRMask(32, 32)[2] == 0xff;
  }

  /** The IDs 1 and 001 fold to one IPv4 address: its packets go to the peer that is listed last. */
  lemma SharedAddress(env: Env)
    requires env.decode("x") == Some([1]) && env.decode("y") == Some([0, 0, 1])
    ensures Addr4([1]) == Addr4([0, 0, 1]) && NetID([1]) != NetID([0, 0, 1])
    ensures var start := Load(env, [PeerConf("x", "A", []), PeerConf("y", "B", [])]);
            start.Loaded? &&
            FindRouteForIP(start.tables.byRoute, Addr4([1])) == To(MkPeer([0, 0, 1], "B"))
  {
    OneAddress();
    var confs := [PeerConf("x", "A", []), PeerConf("y", "B", [])];
    TwoLoaded(env);
    var t := Load(env, confs).tables;
    LoadNets(env, confs);
    LastFound(MkPeer([1], "A"), MkPeer([0, 0, 1], "B"), t.byRoute);
  }

  lemma LastFound(p: Peer, q: Peer, byRoute: map<IPNet, Peer>)
    requires p == MkPeer(p.id, p.name) && q == MkPeer(q.id, q.name) && p.id != q.id
    requires LastNets([p, q], [NetsOf(p, []), NetsOf(q, [])], byRoute)
    ensures FindRouteForIP(byRoute, q.addr4) == To(q)
  {
    RoutedWithoutRoutes([p, q], [NetsOf(p, []), NetsOf(q, [])], byRoute, 1);
  }

  lemma TwoLoaded(env: Env)
    requires env.decode("x") == Some([1]) && env.decode("y") == Some([0, 0, 1])
    ensures var confs := [PeerConf("x", "A", []), PeerConf("y", "B", [])];
            && Load(env, confs).Loaded?
            && Load(env, confs).tables.peers == [MkPeer([1], "A"), MkPeer([0, 0, 1], "B")]
            && ConfNets(env, confs) == [NetsOf(MkPeer([1], "A"), []), NetsOf(MkPeer([0, 0, 1], "B"), [])]
  {
    var confs := [PeerConf("x", "A", []), PeerConf("y", "B", [])];
    assert confs[..1] == [confs[0]] && ParseAll(env, []) == Some([]);
    OneLoaded(env, [1], "x", "A");
    assert ConfNets(env, confs) == ConfNets(env, confs[..1]) + [NetsOf(MkPeer([0, 0, 1], "B"), [])];
  }

  lemma OneAddress()
    ensures Addr4([1]) == Addr4([0, 0, 1]) && NetID([1]) != NetID([0, 0, 1])
  {
    FoldShort(1, 2, 0);
    FoldShort(2, 2, 1);
    FoldShort(0xde, 4, 0);
    assert Xor(1, 1) == Xor(Xor(1, 0), 1) == 0 && Xor(2, 0) == 2;
    assert Xor(0xde, 1) == 0xdf && Xor(0xde, 0) == 0xde;
    assert NetID([1])[0] != NetID([0, 0, 1])[0];
  }

  /** The lane `k` of the two IDs. */
  lemma FoldShort(seed: bv8, m: nat, k: nat)
    requires m == 2 || m == 4
    ensures Fold(Xor, seed, [1], m, k) == if k == 0 then Xor(seed, 1) else seed
    ensures Fold(Xor, seed, [0, 0, 1], m, k) ==
            var first := if k == 0 then Xor(seed, 0) else seed;
            var second := if k == 1 then Xor(first, 0) else first;
            if 2 % m == k then Xor(second, 1) else second
  {
    var u, v: Bytes := [1], [0, 0, 1];
    FoldNext(Xor, seed, u, 0, m, k);
    assert u[..0] == [] && u[..1] == u;
    FoldNext(Xor, seed, v, 0, m, k);
    FoldNext(Xor, seed, v, 1, m, k);
    FoldNext(Xor, seed, v, 2, m, k);
    assert v[..0] == [] && v[..3] == v;
  }

  /** The destination of a packet, by its version; nothing for other protocols. */
  function Destination(packet: Bytes): Option<Bytes>
    requires |packet| == CAPACITY
  {
    if packet[0] & 0xf0 == 0x40 then Some(packet[16..20])
    else if packet[0] & 0xf0 == 0x60 then Some(packet[24..40])
    else None
  }

  /**
   * Where every packet goes. Those for services are the TCP packets to other addresses than one's own in
   * the service range, with the destination port in network order; routed are all packets to addresses
   * outside the range but those for the node itself.
   */
  lemma Decides(self: Bytes, byRoute: map<IPNet, Peer>, packet: Bytes)
    requires |packet| == CAPACITY
    ensures var d := Decide(self, byRoute, packet);
            var dst := Destination(packet);
            && (d.Routed? <==>
                  && dst.Some? && dst.value != Addr4(self) && dst.value != Addr6(self)
                  && !Contains(NETWORK_RANGE, dst.value))
            && (d.Routed? ==> d.lookup == FindRouteForIP(byRoute, dst.value))
            && (d.ToServices? <==> dst.Some? && Contains(NETWORK_RANGE, dst.value) && packet[6] == 6)
            && (d.ToServices? ==>
                  d.addr == dst.value && |d.addr| == 16 && d.port == packet[42] as nat * 256 + packet[43] as nat)
  {
    BuiltinOutside(self);
    Addr6Length(self);
  }

  /**
   * Packets for the built-in addresses of peers never go to the service network, and those for service
   * addresses never into the tunnel: TCP ones are handed over with the destination port of the packet.
   */
  lemma TunnelOrServices(self: Bytes, byRoute: map<IPNet, Peer>, packet: Bytes, q: Bytes, name: Bytes)
    requires |packet| == CAPACITY && packet[0] & 0xf0 == 0x60
    ensures packet[24..40] == Addr6(q) ==>
              Decide(self, byRoute, packet) ==
              if Addr6(q) == Addr6(self) then Ignored else Routed(FindRouteForIP(byRoute, Addr6(q)))
    ensures packet[24..40] == ServiceAddr6(q, name) ==>
              Decide(self, byRoute, packet) ==
              if packet[6] == 6 then ToServices(ServiceAddr6(q, name), packet[42] as nat * 256 + packet[43] as nat)
              else Ignored
  {
    ServiceAddress(q, name, q);
    BuiltinOutside(self);
  }
}
