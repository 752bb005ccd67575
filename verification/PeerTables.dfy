/** The configuration of a node: the list of peers and the indices built over it. */
module PeerTables {
  import opened Common
  import opened Addresses

  datatype Peer = Peer(id: Bytes, name: string, addr4: Bytes, addr6: Bytes)

  /** Library functions the configuration relies on, about which nothing is assumed. */
  datatype Env = Env(
    lower: string -> string,
    parseCIDR: string -> Option<IPNet>,
    decode: string -> Option<Bytes>,
    show: Bytes -> string)

  function MkPeer(id: Bytes, name: string): Peer {
    Peer(id, name, Addr4(id), Addr6(id))
  }

  function Host4(p: Peer): IPNet {
    IPNet(p.addr4, CIDRMask(32, 32))
  }

  function Host6(p: Peer): IPNet {
    IPNet(p.addr6, CIDRMask(128, 128))
  }

  datatype Tables = Tables(
    peers: seq<Peer>, byRoute: map<IPNet, Peer>, byName: map<string, Peer>, byNetID: map<Bytes, Peer>)

  const NO_PEERS := Tables([], map[], map[], map[])

  function Insert(m: map<IPNet, Peer>, nets: seq<IPNet>, p: Peer): map<IPNet, Peer> {
    if nets == [] then m else Insert(m, nets[..|nets| - 1], p)[nets[|nets| - 1] := p]
  }

  /** The tables after one more peer, with routes of its own besides its two addresses. */
  function Enlist(env: Env, t: Tables, p: Peer, routes: seq<IPNet>): Tables {
    Tables(
      t.peers + [p],
      Insert(t.byRoute, routes, p)[Host4(p) := p][Host6(p) := p],
      if p.name != "" then t.byName[env.lower(p.name) := p] else t.byName,
      t.byNetID[NetID(p.id) := p])
  }

  datatype PeerConf = PeerConf(id: string, name: string, routes: seq<string>)

  datatype Loading = Loaded(tables: Tables) | BadPeer | FatalRoute

  function ParseAll(env: Env, routes: seq<string>): Option<seq<IPNet>> {
    if routes == [] then Some([])
    else
      match ParseAll(env, routes[..|routes| - 1])
      case None => None
      case Some(nets) =>
        match env.parseCIDR(routes[|routes| - 1])
        case None => None
        case Some(n) => Some(nets + [n])
  }

  function Load(env: Env, confs: seq<PeerConf>): Loading {
    if confs == [] then Loaded(NO_PEERS)
    else
      match Load(env, confs[..|confs| - 1])
      case Loaded(t) => LoadNext(env, t, confs[|confs| - 1])
      case failed => failed
  }

  function LoadNext(env: Env, t: Tables, conf: PeerConf): Loading {
    match env.decode(conf.id)
    case None => BadPeer
    case Some(id) =>
      match ParseAll(env, conf.routes)
      case None => FatalRoute
      case Some(nets) => Loaded(Enlist(env, t, MkPeer(id, conf.name), nets))
  }

  /** A load that fails at some entry fails as a whole. */
  lemma {:induction false} LoadFails(env: Env, confs: seq<PeerConf>, i: nat)
    requires i <= |confs| && !Load(env, confs[..i]).Loaded?
    ensures Load(env, confs) == Load(env, confs[..i])
    decreases |confs| - i
  {
    if i < |confs| {
      assert confs[..i + 1][..i] == confs[..i];
      LoadFails(env, confs, i + 1);
    } else {
      assert confs[..i] == confs;
    }
  }

  lemma {:induction false} ParseFails(env: Env, routes: seq<string>, i: nat)
    requires i <= |routes| && ParseAll(env, routes[..i]).None?
    ensures ParseAll(env, routes).None?
    decreases |routes| - i
  {
    if i < |routes| {
      assert routes[..i + 1][..i] == routes[..i];
      ParseFails(env, routes, i + 1);
    } else {
      assert routes[..i] == routes;
    }
  }

  /** Routes are parsed one by one, in order, and fail as a whole. */
  lemma {:induction false} ParseAllIs(env: Env, routes: seq<string>)
    ensures ParseAll(env, routes).Some? <==> forall i :: 0 <= i < |routes| ==> env.parseCIDR(routes[i]).Some?
    ensures ParseAll(env, routes).Some? ==>
              && |ParseAll(env, routes).value| == |routes|
              && forall i :: 0 <= i < |routes| ==> env.parseCIDR(routes[i]) == Some(ParseAll(env, routes).value[i])
  {
    if routes != [] {
      ParseAllIs(env, routes[..|routes| - 1]);
    }
  }

  /** An entry of the file can be read: its ID and all its routes. */
  predicate Readable(env: Env, conf: PeerConf) {
    env.decode(conf.id).Some? && forall i :: 0 <= i < |conf.routes| ==> env.parseCIDR(conf.routes[i]).Some?
  }

  /** Entry `i` is the first that cannot be read. */
  ghost predicate FirstUnreadable(env: Env, confs: seq<PeerConf>, i: nat) {
    i < |confs| && !Readable(env, confs[i]) && forall j :: 0 <= j < i ==> Readable(env, confs[j])
  }

  /** A file whose entries can all be read gives one peer for each, in order. */
  lemma {:induction false} AllLoaded(env: Env, confs: seq<PeerConf>)
    requires forall i :: 0 <= i < |confs| ==> Readable(env, confs[i])
    ensures Load(env, confs).Loaded? && |Load(env, confs).tables.peers| == |confs|
    ensures forall i :: 0 <= i < |confs| ==>
              Readable(env, confs[i]) &&
              Load(env, confs).tables.peers[i] == MkPeer(env.decode(confs[i].id).value, confs[i].name)
  {
    if confs != [] {
      var n := |confs| - 1;
      AllLoaded(env, confs[..n]);
      ParseAllIs(env, confs[n].routes);
    }
  }

  /** Otherwise the first that cannot decides: a bad ID ends the reading, a bad route the program. */
  lemma UnreadableDecides(env: Env, confs: seq<PeerConf>, i: nat)
    requires FirstUnreadable(env, confs, i)
    ensures Load(env, confs) == if env.decode(confs[i].id).None? then BadPeer else FatalRoute
  {
    AllLoaded(env, confs[..i]);
    ParseAllIs(env, confs[i].routes);
    assert confs[..i + 1][..i] == confs[..i];
    LoadFails(env, confs, i + 1);
  }

  function First(peers: seq<Peer>, test: Peer -> bool): Option<Peer> {
    if peers == [] then None
    else if test(peers[0]) then Some(peers[0])
    else First(peers[1..], test)
  }

  /** What every `FindPeer` search returns: the first match, or nothing when there is none. */
  lemma {:induction false} FirstIs(peers: seq<Peer>, test: Peer -> bool)
    ensures match First(peers, test)
            case Some(p) =>
              exists i :: 0 <= i < |peers| && peers[i] == p && test(p) && forall j :: 0 <= j < i ==> !test(peers[j])
            case None => forall j :: 0 <= j < |peers| ==> !test(peers[j])
  {
    if peers != [] && !test(peers[0]) {
      FirstIs(peers[1..], test);
      var rest := peers[1..];
      match First(peers, test) {
        case Some(p) =>
          var i :| 0 <= i < |rest| && rest[i] == p && test(p) && forall j :: 0 <= j < i ==> !test(rest[j]);
          assert peers[i + 1] == p;
          forall j | 0 <= j < i + 1 ensures !test(peers[j]) {
            if j > 0 {
              assert peers[j] == rest[j - 1];
            }
          }
        case None =>
          forall j | 0 <= j < |peers| ensures !test(peers[j]) {
            if j > 0 {
              assert peers[j] == rest[j - 1];
            }
          }
      }
    }
  }

  /** The loop of `FindPeer`, `FindPeerByName` and `FindPeerByIDPrefix`. */
  method Find(peers: seq<Peer>, test: Peer -> bool) returns (r: Option<Peer>)
    ensures r == First(peers, test)
  {
    for i := 0 to |peers|
      invariant First(peers, test) == First(peers[i..], test)
    {
      if test(peers[i]) {
        return Some(peers[i]);
      }
    }
    return None;
  }

  function HasID(id: Bytes): Peer -> bool {
    (p: Peer) => p.id == id
  }

  function HasName(name: string): Peer -> bool {
    (p: Peer) => p.name == name
  }

  function HasIDPrefix(env: Env, prefix: string): Peer -> bool {
    (p: Peer) => prefix <= env.show(p.id)
  }

  /** The test behind a command-line reference: `@name`, or a prefix of the printed ID. */
  function CLIRef(env: Env, needle: string): Peer -> bool {
    if "@" <= needle then HasName(needle[1..]) else HasIDPrefix(env, needle)
  }

  /** A reference means the peer of that name, or those whose printed ID begins with it. */
  lemma CLIRefIs(env: Env, name: string, prefix: string, p: Peer)
    ensures CLIRef(env, "@" + name)(p) <==> p.name == name
    ensures prefix == "" || prefix[0] != '@' ==> (CLIRef(env, prefix)(p) <==> prefix <= env.show(p.id))
  {
    assert ("@" + name)[1..] == name && "@" <= "@" + name;
  }

  class Config {
    const env: Env
    var peers: seq<Peer>
    var byRoute: map<IPNet, Peer>
    var byName: map<string, Peer>
    var byNetID: map<Bytes, Peer>

    constructor (env: Env)
      ensures View() == NO_PEERS && this.env == env
    {
      this.env := env;
      peers, byRoute, byName, byNetID := [], map[], map[], map[];
    }

    function View(): Tables
      reads this
    {
      Tables(peers, byRoute, byName, byNetID)
    }

    /** Reads the peers of a configuration file into empty tables; on failure the tables are dropped. */
    method Read(confs: seq<PeerConf>) returns (out: Loading)
      requires View() == NO_PEERS
      modifies this
      ensures out == Load(env, confs)
      ensures out.Loaded? ==> View() == out.tables
    {
      for i := 0 to |confs|
        invariant Load(env, confs[..i]) == Loaded(View())
      {
        assert confs[..i + 1][..i] == confs[..i];
        var failed := ReadPeer(confs[i]);
        if failed.Some? {
          LoadFails(env, confs, i + 1);
          return failed.value;
        }
      }
      assert confs[..|confs|] == confs;
      return Loaded(View());
    }

    method ReadPeer(conf: PeerConf) returns (failed: Option<Loading>)
      modifies this
      ensures var out := LoadNext(env, old(View()), conf);
              match failed
              case None => out == Loaded(View())
              case Some(f) => f == out && !out.Loaded?
    {
      var id := env.decode(conf.id);
      if id.None? {
        return Some(BadPeer);
      }
      var p := MkPeer(id.value, conf.name);
      var ok := InsertRoutes(conf.routes, p);
      if !ok {
        return Some(FatalRoute);
      }
      Index(p);
      peers := peers + [p];
      return None;
    }

    /** The routes that an entry lists, until one does not parse. */
    method InsertRoutes(routes: seq<string>, p: Peer) returns (ok: bool)
      modifies this`byRoute
      ensures ok == ParseAll(env, routes).Some?
      ensures ok ==> byRoute == Insert(old(byRoute), ParseAll(env, routes).value, p)
    {
      for i := 0 to |routes|
        invariant ParseAll(env, routes[..i]).Some?
        invariant byRoute == Insert(old(byRoute), ParseAll(env, routes[..i]).value, p)
      {
        assert routes[..i + 1][..i] == routes[..i];
        var network := env.parseCIDR(routes[i]);
        if network.None? {
          ParseFails(env, routes, i + 1);
          return false;
        }
        ghost var nets := ParseAll(env, routes[..i]).value;
        assert (nets + [network.value])[..|nets|] == nets;
        byRoute := byRoute[network.value := p];
      }
      assert routes[..|routes|] == routes;
      return true;
    }

    method AddPeer(name: string, id: Bytes)
      modifies this
      ensures View() == Enlist(env, old(View()), MkPeer(id, name), [])
    {
      var p := MkPeer(id, name);
      peers := peers + [p];
      Index(p);
    }

    /** The insertions that `Read` and `AddPeer` share. */
    method Index(p: Peer)
      requires p.addr6 == Addr6(p.id)
      modifies this
      ensures View() == Enlist(env, old(View()), p, []).(peers := old(peers))
    {
      byRoute := byRoute[Host4(p) := p];
      byRoute := byRoute[Host6(p) := p];
      if p.name != "" {
        byName := byName[env.lower(p.name) := p];
      }
      assert p.addr6[12..16] == NetID(p.id);
      byNetID := byNetID[p.addr6[12..16] := p];
    }
  }

  // What the indices say about the list

  function NameKey(env: Env): Peer -> Option<string> {
    (p: Peer) => if p.name == "" then None else Some(env.lower(p.name))
  }

  function NetKey(): Peer -> Option<Bytes> {
    (p: Peer) => Some(NetID(p.id))
  }

  /** `m` maps every key to the last peer that has it, and has no other keys. */
  ghost predicate LastByKey<K>(peers: seq<Peer>, m: map<K, Peer>, key: Peer -> Option<K>) {
    && (forall k :: k in m ==> exists i: nat :: LastAt(peers, i, key, k) && peers[i] == m[k])
    && (forall i :: 0 <= i < |peers| && key(peers[i]).Some? ==> key(peers[i]).value in m)
  }

  ghost predicate LastAt<K>(peers: seq<Peer>, i: nat, key: Peer -> Option<K>, k: K) {
    i < |peers| && key(peers[i]) == Some(k) && forall j :: i < j < |peers| ==> key(peers[j]) != Some(k)
  }

  lemma LastByKeyGrows<K>(peers: seq<Peer>, m: map<K, Peer>, key: Peer -> Option<K>, p: Peer)
    requires LastByKey(peers, m, key)
    ensures LastByKey(peers + [p], if key(p).Some? then m[key(p).value := p] else m, key)
  {
    var all := peers + [p];
    var m' := if key(p).Some? then m[key(p).value := p] else m;
    forall k | k in m'
      ensures exists i: nat :: LastAt(all, i, key, k) && all[i] == m'[k]
    {
      if key(p) == Some(k) {
        assert LastAt(all, |peers|, key, k);
      } else {
        var i: nat :| LastAt(peers, i, key, k) && peers[i] == m[k];
        assert LastAt(all, i, key, k);
      }
    }
  }

  /** Both indices agree with the list, and every peer carries the addresses of its ID. */
  ghost predicate Indexed(env: Env, t: Tables) {
    && LastByKey(t.peers, t.byName, NameKey(env))
    && LastByKey(t.peers, t.byNetID, NetKey())
    && (forall i :: 0 <= i < |t.peers| ==> t.peers[i] == MkPeer(t.peers[i].id, t.peers[i].name))
  }

  lemma EnlistIndexed(env: Env, t: Tables, id: Bytes, name: string, routes: seq<IPNet>)
    requires Indexed(env, t)
    ensures Indexed(env, Enlist(env, t, MkPeer(id, name), routes))
  {
    LastByKeyGrows(t.peers, t.byName, NameKey(env), MkPeer(id, name));
    LastByKeyGrows(t.peers, t.byNetID, NetKey(), MkPeer(id, name));
  }

  /** After reading any configuration, both indices agree with the list. */
  lemma {:induction false} LoadIndexed(env: Env, confs: seq<PeerConf>)
    requires Load(env, confs).Loaded?
    ensures Indexed(env, Load(env, confs).tables)
  {
    if confs != [] {
      var conf := confs[|confs| - 1];
      LoadIndexed(env, confs[..|confs| - 1]);
      EnlistIndexed(env, Load(env, confs[..|confs| - 1]).tables, env.decode(conf.id).value, conf.name,
                    ParseAll(env, conf.routes).value);
    }
  }
}
