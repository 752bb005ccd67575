/** The name server for peers and their services: what it answers, and where its aliases lead. */
module MagicDns {
  import opened Common
  import opened Strings
  import opened Addresses
  import opened RouteRpc

  /** The printed and parsed forms of IDs and names, as parameters. */
  datatype Codec = Codec(
    decode: string -> Option<Bytes>, cid: Bytes -> string, lower: string -> string, bytes: string -> Bytes)

  /**
   * What a running server sees. It was given a copy of the configuration: the list of peers is the one
   * at its start, the index by name is shared with the node and grows.
   */
  datatype Zone = Zone(
    iface: string, hostname: string, self: Bytes, peers: seq<PeerTables.Peer>, byName: map<string, PeerTables.Peer>)

  datatype Record =
    | CNAME(name: string, target: string)
    | A(name: string, addr: Bytes)
    | AAAA(name: string, addr: Bytes)

  function Suffix(iface: string): string {
    if iface == "mynetwork" then "mynetwork." else iface + ".mynetwork."
  }

  function WithSuffix(iface: string, s: string): string {
    s + "." + Suffix(iface)
  }

  function TrimSuffix(s: string, suffix: string): string {
    if |suffix| <= |s| && s[|s| - |suffix|..] == suffix then s[..|s| - |suffix|] else s
  }

  function Prefixed(svc: string, name: string): string {
    if svc == "" then name else svc + "." + name
  }

  function AliasRecord(c: Codec, z: Zone, alias: string, svc: string, id: Bytes): Record {
    CNAME(WithSuffix(z.iface, Prefixed(svc, alias)), WithSuffix(z.iface, Prefixed(svc, c.cid(id))))
  }

  /** The address records of a peer, or the one of a service on it. */
  function IDRecords(c: Codec, z: Zone, id: Bytes, svc: string, addr4: Bytes, addr6: Bytes): seq<Record> {
    var name := WithSuffix(z.iface, Prefixed(svc, c.cid(id)));
    if svc == "" then [A(name, addr4), AAAA(name, addr6)]
    else [AAAA(name, ServiceAddr6(id, c.bytes(svc)))]
  }

  function AnswerID(c: Codec, z: Zone, svc: string, id: Bytes): seq<Record> {
    if id == z.self then IDRecords(c, z, id, svc, Addr4(z.self), Addr6(z.self))
    else
      match PeerTables.First(z.peers, PeerTables.HasID(id))
      case None => []
      case Some(p) => IDRecords(c, z, p.id, svc, p.addr4, p.addr6)
  }

  /** The peer that an alias stands for. */
  function Aliased(c: Codec, z: Zone, alias: string): Option<PeerTables.Peer> {
    if alias == c.lower(z.hostname) then Some(PeerTables.MkPeer(z.self, ""))
    else if alias in z.byName then Some(z.byName[alias])
    else None
  }

  function AnswerName(c: Codec, z: Zone, svc: string, node: string): seq<Record> {
    match c.decode(node)
    case Some(id) => AnswerID(c, z, svc, id)
    case None =>
      match Aliased(c, z, c.lower(node))
      case None => []
      case Some(p) =>
        [AliasRecord(c, z, c.lower(node), svc, p.id)] + IDRecords(c, z, p.id, svc, p.addr4, p.addr6)
  }

  /** The service and node of a query name, unless it has too many labels. */
  function Parse(z: Zone, qname: string): Option<(string, string)> {
    var parts := Split(TrimSuffix(qname, "." + Suffix(z.iface)), '.');
    if |parts| == 2 then Some((parts[0], parts[1]))
    else if |parts| == 1 then Some(("", parts[0]))
    else None
  }

  function AnswerFor(c: Codec, z: Zone, qname: string): Option<seq<Record>> {
    match Parse(z, qname)
    case None => None
    case Some((svc, node)) => Some(AnswerName(c, z, svc, node))
  }

  datatype Question = Question(name: string, address: bool)

  /** All answers to a message; one name with too many labels and there is no reply at all. */
  function Answers(c: Codec, z: Zone, questions: seq<Question>): Option<seq<Record>> {
    if questions == [] then Some([])
    else
      var q := questions[|questions| - 1];
      match Answers(c, z, questions[..|questions| - 1])
      case None => None
      case Some(front) =>
        if !q.address then Some(front)
        else
          match AnswerFor(c, z, q.name)
          case None => None
          case Some(more) => Some(front + more)
  }

  lemma {:induction false} AnswersStop(c: Codec, z: Zone, questions: seq<Question>, i: nat)
    requires i <= |questions| && Answers(c, z, questions[..i]).None?
    ensures Answers(c, z, questions).None?
    decreases |questions| - i
  {
    if i == |questions| {
      assert questions[..i] == questions;
    } else {
      assert questions[..i + 1][..i] == questions[..i];
      AnswersStop(c, z, questions, i + 1);
    }
  }

  method Handle(c: Codec, z: Zone, questions: seq<Question>) returns (reply: Option<seq<Record>>)
    ensures reply == Answers(c, z, questions)
  {
    var answer: seq<Record> := [];
    for i := 0 to |questions|
      invariant Answers(c, z, questions[..i]) == Some(answer)
    {
      assert questions[..i + 1][..i] == questions[..i];
      var q := questions[i];
      if q.address {
        var nameParts := Split(TrimSuffix(q.name, "." + Suffix(z.iface)), '.');
        var svc, node := "", "";
        if |nameParts| == 2 {
          svc, node := nameParts[0], nameParts[1];
        } else if |nameParts| == 1 {
          node := nameParts[0];
        } else {
          AnswersStop(c, z, questions, i + 1);
          return None;
        }
        var more := Resolve(c, z, svc, node);
        answer := answer + more;
      }
    }
    assert questions[..|questions|] == questions;
    return Some(answer);
  }

  method Resolve(c: Codec, z: Zone, svc: string, node: string) returns (answer: seq<Record>)
    ensures answer == AnswerName(c, z, svc, node)
  {
    answer := [];
    var qpeer := c.decode(node);
    if qpeer.Some? {
      if qpeer.value == z.self {
        answer := IDRecords(c, z, z.self, svc, Addr4(z.self), Addr6(z.self));
      } else {
        var p := PeerTables.Find(z.peers, PeerTables.HasID(qpeer.value));
        if p.Some? {
          answer := IDRecords(c, z, p.value.id, svc, p.value.addr4, p.value.addr6);
        }
      }
    } else {
      var qName := c.lower(node);
      if qName == c.lower(z.hostname) {
        answer := answer + [AliasRecord(c, z, qName, svc, z.self)];
        answer := answer + IDRecords(c, z, z.self, svc, Addr4(z.self), Addr6(z.self));
      } else if qName in z.byName {
        var p := z.byName[qName];
        answer := answer + [AliasRecord(c, z, qName, svc, p.id)];
        answer := answer + IDRecords(c, z, p.id, svc, p.addr4, p.addr6);
      }
    }
  }

  // Following an alias

  lemma TrimsBack(s: string, suffix: string)
    ensures TrimSuffix(s + suffix, suffix) == s
  {
    assert (s + suffix)[|s|..] == suffix;
    assert (s + suffix)[..|s|] == s;
  }

  /** A name that the server prints is parsed back to the service and the node it was printed for. */
  lemma PrintedParses(z: Zone, svc: string, node: string)
    requires '.' !in svc && '.' !in node
    ensures Parse(z, WithSuffix(z.iface, Prefixed(svc, node))) == Some((svc, node))
  {
    var x := Prefixed(svc, node);
    assert WithSuffix(z.iface, x) == x + ("." + Suffix(z.iface));
    TrimsBack(x, "." + Suffix(z.iface));
    SplitNone(node, '.');
    if svc != "" {
      SplitNone(svc, '.');
      SplitOneMore(svc, node, '.');
      assert svc + "." + node == svc + ['.'] + node;
      assert [svc] + [node] == [svc, node];
    }
  }

  /** The parts of a query name hold no dots. */
  lemma PartsFree(z: Zone, qname: string)
    ensures Parse(z, qname).Some? ==> '.' !in Parse(z, qname).value.0 && '.' !in Parse(z, qname).value.1
  {
    JoinSplit(TrimSuffix(qname, "." + Suffix(z.iface)), '.');
  }

  ghost predicate KnownAtStart(z: Zone, id: Bytes) {
    id == z.self || exists i :: 0 <= i < |z.peers| && z.peers[i].id == id
  }

  /** Every peer the zone knows has the addresses of its ID. */
  ghost predicate AddrsOk(z: Zone) {
    && (forall i :: 0 <= i < |z.peers| ==> z.peers[i] == PeerTables.MkPeer(z.peers[i].id, z.peers[i].name))
    && (forall k :: k in z.byName ==> z.byName[k] == PeerTables.MkPeer(z.byName[k].id, z.byName[k].name))
  }

  /**
   * Following an alias preserves its meaning: for every query that is answered with an alias, asking
   * for the name the alias points to yields exactly the address records that came with it, if and only
   * if the peer was known when the server started; a peer added later has an alias that leads nowhere.
   */
  lemma FollowAlias(c: Codec, z: Zone, qname: string)
    requires AddrsOk(z)
    requires AnswerFor(c, z, qname).Some? && |AnswerFor(c, z, qname).value| > 0
    requires AnswerFor(c, z, qname).value[0].CNAME?
    requires var (svc, node) := Parse(z, qname).value;
             Aliased(c, z, c.lower(node)).Some? ==>
               var id := Aliased(c, z, c.lower(node)).value.id;
               '.' !in c.cid(id) && c.decode(c.cid(id)) == Some(id)
    ensures var (svc, node) := Parse(z, qname).value;
            var answer := AnswerFor(c, z, qname).value;
            Aliased(c, z, c.lower(node)).Some? &&
            var p := Aliased(c, z, c.lower(node)).value;
            && answer[0] == AliasRecord(c, z, c.lower(node), svc, p.id)
            && Parse(z, answer[0].target) == Some((svc, c.cid(p.id)))
            && (AnswerFor(c, z, answer[0].target) == Some(answer[1..]) <==> KnownAtStart(z, p.id))
            && (!KnownAtStart(z, p.id) ==> AnswerFor(c, z, answer[0].target) == Some([]))
  {
    var (svc, node) := Parse(z, qname).value;
    var answer := AnswerFor(c, z, qname).value;
    OnlyAliasesLead(c, z, svc, node);
    var p := Aliased(c, z, c.lower(node)).value;
    assert answer[1..] == IDRecords(c, z, p.id, svc, p.addr4, p.addr6);
    PartsFree(z, qname);
    PrintedParses(z, svc, c.cid(p.id));
    ByID(c, z, svc, p);
  }

  /** An answer begins with an alias only when the node name is no ID and stands for a peer. */
  lemma OnlyAliasesLead(c: Codec, z: Zone, svc: string, node: string)
    requires |AnswerName(c, z, svc, node)| > 0 && AnswerName(c, z, svc, node)[0].CNAME?
    ensures c.decode(node).None? && Aliased(c, z, c.lower(node)).Some?
  {
  }

  /** Asked by ID, the server knows the peers it was started with. */
  lemma ByID(c: Codec, z: Zone, svc: string, p: PeerTables.Peer)
    requires AddrsOk(z) && p == PeerTables.MkPeer(p.id, p.name)
    ensures AnswerID(c, z, svc, p.id) ==
            if KnownAtStart(z, p.id) then IDRecords(c, z, p.id, svc, p.addr4, p.addr6) else []
  {
    PeerTables.FirstIs(z.peers, PeerTables.HasID(p.id));
  }

  // What the records say

  /** The addresses of a node, or the one of a service on it, under one name. */
  ghost predicate RecordsFor(c: Codec, records: seq<Record>, name: string, id: Bytes, svc: string) {
    if svc == "" then records == [A(name, Addr4(id)), AAAA(name, Addr6(id))]
    else
      && |records| == 1 && records[0].AAAA? && records[0].name == name && |records[0].addr| == 16
      && Contains(NETWORK_RANGE, records[0].addr)
      && records[0].addr[10..14] == NetID(id) && records[0].addr[14..16] == ServiceID(c.bytes(svc))
  }

  lemma IDRecordsFor(c: Codec, z: Zone, p: PeerTables.Peer, svc: string)
    requires p == PeerTables.MkPeer(p.id, p.name)
    ensures RecordsFor(c, IDRecords(c, z, p.id, svc, p.addr4, p.addr6),
                       WithSuffix(z.iface, Prefixed(svc, c.cid(p.id))), p.id, svc)
  {
    if svc != "" {
      ServiceAddress(p.id, c.bytes(svc), p.id);
    }
  }

  /**
   * Asked by ID for a node or a service on it, the server gives the built-in addresses of the node, or an
   * address in the service range that decodes to the node and the service; nothing for other IDs.
   */
  lemma AnswersByID(c: Codec, z: Zone, svc: string, p: PeerTables.Peer)
    requires AddrsOk(z) && p == PeerTables.MkPeer(p.id, p.name)
    requires '.' !in svc && '.' !in c.cid(p.id) && c.decode(c.cid(p.id)) == Some(p.id)
    ensures var qname := WithSuffix(z.iface, Prefixed(svc, c.cid(p.id)));
            && AnswerFor(c, z, qname).Some?
            && (KnownAtStart(z, p.id) ==> RecordsFor(c, AnswerFor(c, z, qname).value, qname, p.id, svc))
            && (!KnownAtStart(z, p.id) ==> AnswerFor(c, z, qname).value == [])
  {
    PrintedParses(z, svc, c.cid(p.id));
    ByID(c, z, svc, p);
    IDRecordsFor(c, z, p, svc);
  }

  /**
   * Asked by a name that is no ID, the server gives the alias and with it the same addresses: of itself
   * for its host name, of the peer for a name in the index, and nothing for other names.
   */
  lemma AnswersByName(c: Codec, z: Zone, svc: string, alias: string)
    requires AddrsOk(z) && '.' !in svc && '.' !in alias && c.decode(alias).None?
    ensures var qname := WithSuffix(z.iface, Prefixed(svc, alias));
            var key := c.lower(alias);
            && AnswerFor(c, z, qname).Some?
            && (key == c.lower(z.hostname) ==> Aliases(c, z, svc, key, AnswerFor(c, z, qname).value, z.self))
            && (key != c.lower(z.hostname) && key in z.byName ==>
                  Aliases(c, z, svc, key, AnswerFor(c, z, qname).value, z.byName[key].id))
            && (key != c.lower(z.hostname) && key !in z.byName ==> AnswerFor(c, z, qname).value == [])
  {
    PrintedParses(z, svc, alias);
    match Aliased(c, z, c.lower(alias)) {
      case Some(p) =>
        IDRecordsFor(c, z, p, svc);
        var answer := AnswerName(c, z, svc, alias);
        assert answer[1..] == IDRecords(c, z, p.id, svc, p.addr4, p.addr6);
      case None =>
    }
  }

  /** An alias record to the printed ID, and the addresses under that name. */
  ghost predicate Aliases(c: Codec, z: Zone, svc: string, key: string, answer: seq<Record>, id: Bytes) {
    var target := WithSuffix(z.iface, Prefixed(svc, c.cid(id)));
    && |answer| > 0 && answer[0] == CNAME(WithSuffix(z.iface, Prefixed(svc, key)), target)
    && RecordsFor(c, answer[1..], target, id, svc)
  }

  /** A message is answered question by question, those that ask for no address being skipped. */
  lemma {:induction false} AnswersConcat(c: Codec, z: Zone, xs: seq<Question>, ys: seq<Question>)
    ensures Answers(c, z, xs + ys).Some? <==> Answers(c, z, xs).Some? && Answers(c, z, ys).Some?
    ensures Answers(c, z, xs + ys).Some? ==>
              Answers(c, z, xs + ys).value == Answers(c, z, xs).value + Answers(c, z, ys).value
  {
    if ys == [] {
      assert xs + ys == xs;
    } else {
      var n := |ys| - 1;
      assert (xs + ys)[..|xs + ys| - 1] == xs + ys[..n];
      AnswersConcat(c, z, xs, ys[..n]);
    }
  }

  lemma AnswersOne(c: Codec, z: Zone, q: Question)
    ensures Answers(c, z, [q]) == if q.address then AnswerFor(c, z, q.name) else Some([])
  {
    assert [q][..0] == [];
    assert Answers(c, z, []) == Some([]);
    match AnswerFor(c, z, q.name) {
      case Some(more) => assert [] + more == more;
      case None =>
    }
  }

  /** What the zone of the default interface and of another one is called. */
  lemma Suffixes()
    ensures WithSuffix("mynetwork", "a") == "a.mynetwork." && WithSuffix("hs1", "a") == "a.hs1.mynetwork."
  {
  }

  /** The zone of a server started on some tables, at a later point of the node's run. */
  function ZoneOf(iface: string, hostname: string, self: Bytes,
                  start: PeerTables.Tables, now: PeerTables.Tables): Zone
  {
    Zone(iface, hostname, self, start.peers, now.byName)
  }

  /** Along every run of requests the zone satisfies what `FollowAlias` asks of it. */
  lemma ZoneAddrsOk(env: PeerTables.Env, s: Node, ops: seq<Op>, iface: string, hostname: string, self: Bytes)
    requires PeerTables.Indexed(env, s.tables)
    ensures AddrsOk(ZoneOf(iface, hostname, self, s.tables, Run(env, s, ops).tables))
  {
    RunKeepsPeers(env, s, ops);
    var now := Run(env, s, ops).tables;
    forall k | k in now.byName
      ensures now.byName[k] == PeerTables.MkPeer(now.byName[k].id, now.byName[k].name)
    {
      var i: nat :| PeerTables.LastAt(now.peers, i, PeerTables.NameKey(env), k) && now.peers[i] == now.byName[k];
    }
  }

  /** A peer accepted at any point of a run is in the zone by name and not by ID. */
  lemma LatePeer(env: PeerTables.Env, s: Node, ops: seq<Op>, op: Op, iface: string, hostname: string, self: Bytes)
    requires PeerTables.Indexed(env, s.tables)
    requires op.PeerAdd? && Do(env, Run(env, s, ops), op).1.Ok?
    ensures env.decode(op.id).Some?
    ensures var p := PeerTables.MkPeer(env.decode(op.id).value, op.name);
            var z := ZoneOf(iface, hostname, self, s.tables, Do(env, Run(env, s, ops), op).0.tables);
            && AddrsOk(z) && env.lower(op.name) in z.byName && z.byName[env.lower(op.name)] == p
            && (KnownAtStart(z, p.id) <==> p.id == self)
  {
    var now := Run(env, s, ops);
    Admitted(env, now, op);
    RunKeepsPeers(env, s, ops);
    assert (ops + [op])[..|ops|] == ops;
    assert Run(env, s, ops + [op]) == Do(env, now, op).0;
    ZoneAddrsOk(env, s, ops + [op], iface, hostname, self);
  }

  /**
   * So the alias of a peer added at run time leads nowhere: asked for the name, the server prints an
   * alias with the peer's addresses, and asked for the target of that alias it answers with nothing.
   */
  lemma LateAlias(env: PeerTables.Env, c: Codec, s: Node, ops: seq<Op>, op: Op,
                  iface: string, hostname: string, self: Bytes)
    requires PeerTables.Indexed(env, s.tables)
    requires op.PeerAdd? && Do(env, Run(env, s, ops), op).1.Ok?
    requires '.' !in op.name && c.decode(op.name).None? && c.lower(op.name) == env.lower(op.name) != c.lower(hostname)
    requires env.decode(op.id).Some? ==>
               var id := env.decode(op.id).value;
               id != self && '.' !in c.cid(id) && c.decode(c.cid(id)) == Some(id)
    ensures var z := ZoneOf(iface, hostname, self, s.tables, Do(env, Run(env, s, ops), op).0.tables);
            var answer := AnswerFor(c, z, WithSuffix(iface, op.name));
            && answer.Some? && |answer.value| == 3 && answer.value[0].CNAME?
            && AnswerFor(c, z, answer.value[0].target) == Some([])
  {
    var z := ZoneOf(iface, hostname, self, s.tables, Do(env, Run(env, s, ops), op).0.tables);
    LatePeer(env, s, ops, op, iface, hostname, self);
    PrintedParses(z, "", op.name);
    FollowAlias(c, z, WithSuffix(iface, op.name));
  }
}
