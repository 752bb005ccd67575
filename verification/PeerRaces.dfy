/**
 * Requests to add peers that overlap. Every RPC call is served by a goroutine of its own, so a request
 * is three steps between which others may run: it checks ID and name, it appends its peer to the tables,
 * and it routes the peer that is then the last of the list. Each of the steps is taken as atomic.
 */
module PeerRaces {
  import opened Common
  import opened Addresses
  import opened PeerTables
  import opened RouteRpc

  datatype Request = Request(name: string, id: string)

  datatype Step =
    | Check(t: nat)
    | Append(t: nat)
    | Route(t: nat, fails4: bool, fails6: bool)

  /**
   * `seen` holds the requests that have passed their checks, with the number of peers added by then;
   * `added` are those that have appended, in order; `routed` is the peer that a request has routed.
   */
  datatype State = State(node: Node, seen: map<nat, nat>, added: seq<nat>, routed: map<nat, Peer>)

  predicate Enabled(env: Env, reqs: seq<Request>, s: State, step: Step) {
    step.t < |reqs| &&
    match step
    case Check(t) => t !in s.seen
    case Append(t) => t in s.seen && t !in s.added && env.decode(reqs[t].id).Some?
    case Route(t, _, _) => t in s.added && t !in s.routed && s.node.tables.peers != []
  }

  function PeerOf(env: Env, r: Request): Peer
    requires env.decode(r.id).Some?
  {
    MkPeer(env.decode(r.id).value, r.name)
  }

  function Do(env: Env, reqs: seq<Request>, s: State, step: Step): State
    requires Enabled(env, reqs, s, step)
  {
    match step
    case Check(t) =>
      if Rejects(env, s.node.tables.peers, reqs[t].name, reqs[t].id) then s else s.(seen := s.seen[t := |s.added|])
    case Append(t) =>
      s.(node := s.node.(tables := Enlist(env, s.node.tables, PeerOf(env, reqs[t]), [])), added := s.added + [t])
    case Route(t, fails4, fails6) =>
      var p := s.node.tables.peers[|s.node.tables.peers| - 1];
      var tun4 := TunAdd(s.node.tun, Host4(p), fails4).0;
      s.(node := s.node.(tun := TunAdd(tun4, Host6(p), fails6).0), routed := s.routed[t := p])
  }

  function Start(node: Node): State {
    State(node, map[], [], map[])
  }

  function Exec(env: Env, reqs: seq<Request>, node: Node, steps: seq<Step>): Option<State> {
    if steps == [] then Some(Start(node))
    else
      match Exec(env, reqs, node, steps[..|steps| - 1])
      case None => None
      case Some(s) =>
        var step := steps[|steps| - 1];
        if Enabled(env, reqs, s, step) then Some(Do(env, reqs, s, step)) else None
  }

  predicate Clash(p: Peer, q: Peer) {
    p.id == q.id || p.name == q.name
  }

  predicate Decodes(env: Env, reqs: seq<Request>, t: nat) {
    t < |reqs| && env.decode(reqs[t].id).Some?
  }

  /** The list is the first one and then the peers of the requests that have appended, each once. */
  ghost predicate ListOk(env: Env, reqs: seq<Request>, first: seq<Peer>, peers: seq<Peer>, added: seq<nat>) {
    && |peers| == |first| + |added| && first <= peers
    && (forall i :: 0 <= i < |added| ==>
          Decodes(env, reqs, added[i]) && peers[|first| + i] == PeerOf(env, reqs[added[i]]))
    && (forall i, j :: 0 <= i < j < |added| ==> added[i] != added[j])
  }

  /** A request that has passed its checks clashes with no peer that was there when it did. */
  ghost predicate SeenOk(env: Env, reqs: seq<Request>, first: nat, s: State) {
    && (forall t :: t in s.seen ==> NoClash(env, reqs, first, s.node.tables.peers, t, s.seen[t]))
    && (forall i :: 0 <= i < |s.added| ==> s.added[i] in s.seen && s.seen[s.added[i]] <= i)
  }

  ghost predicate NoClash(env: Env, reqs: seq<Request>, first: nat, peers: seq<Peer>, t: nat, at: nat) {
    && Decodes(env, reqs, t) && first + at <= |peers|
    && forall j :: 0 <= j < first + at ==> !Clash(PeerOf(env, reqs[t]), peers[j])
  }

  ghost predicate Inv(env: Env, reqs: seq<Request>, first: seq<Peer>, s: State) {
    && ListOk(env, reqs, first, s.node.tables.peers, s.added)
    && SeenOk(env, reqs, |first|, s)
    && Indexed(env, s.node.tables)
  }

  lemma CheckInv(env: Env, reqs: seq<Request>, first: seq<Peer>, s: State, step: Step)
    requires Inv(env, reqs, first, s) && Enabled(env, reqs, s, step) && step.Check?
    ensures Inv(env, reqs, first, Do(env, reqs, s, step))
  {
    if !Rejects(env, s.node.tables.peers, reqs[step.t].name, reqs[step.t].id) {
      Passed(env, reqs, s.node.tables.peers, step.t);
      CheckSeen(env, reqs, |first|, s, step);
    }
  }

  lemma Passed(env: Env, reqs: seq<Request>, peers: seq<Peer>, t: nat)
    requires t < |reqs| && !Rejects(env, peers, reqs[t].name, reqs[t].id)
    ensures Decodes(env, reqs, t) && forall j :: 0 <= j < |peers| ==> !Clash(PeerOf(env, reqs[t]), peers[j])
  {
    FirstIs(peers, HasID(env.decode(reqs[t].id).value));
    FirstIs(peers, HasName(reqs[t].name));
  }

  lemma CheckSeen(env: Env, reqs: seq<Request>, first: nat, s: State, step: Step)
    requires SeenOk(env, reqs, first, s) && Enabled(env, reqs, s, step) && step.Check?
    requires first + |s.added| == |s.node.tables.peers| && Decodes(env, reqs, step.t)
    requires forall j :: 0 <= j < |s.node.tables.peers| ==> !Clash(PeerOf(env, reqs[step.t]), s.node.tables.peers[j])
    ensures SeenOk(env, reqs, first, Do(env, reqs, s, step))
  {
    assert NoClash(env, reqs, first, s.node.tables.peers, step.t, |s.added|);
  }

  lemma AppendInv(env: Env, reqs: seq<Request>, first: seq<Peer>, s: State, step: Step)
    requires Inv(env, reqs, first, s) && Enabled(env, reqs, s, step) && step.Append?
    ensures Inv(env, reqs, first, Do(env, reqs, s, step))
  {
    var s' := Do(env, reqs, s, step);
    var r := reqs[step.t];
    EnlistIndexed(env, s.node.tables, env.decode(r.id).value, r.name, []);
    AppendList(env, reqs, first, s.node.tables.peers, s.added, step.t);
    assert NoClash(env, reqs, |first|, s.node.tables.peers, step.t, s.seen[step.t]);
    forall t | t in s'.seen
      ensures NoClash(env, reqs, |first|, s'.node.tables.peers, t, s'.seen[t])
    {
      assert NoClash(env, reqs, |first|, s.node.tables.peers, t, s.seen[t]);
    }
  }

  lemma AppendList(env: Env, reqs: seq<Request>, first: seq<Peer>, peers: seq<Peer>, added: seq<nat>, t: nat)
    requires ListOk(env, reqs, first, peers, added) && Decodes(env, reqs, t) && t !in added
    ensures ListOk(env, reqs, first, peers + [PeerOf(env, reqs[t])], added + [t])
  {
  }

  /** Every schedule of any number of requests keeps the list, the checks and the indices in step. */
  lemma {:induction false} RunInv(env: Env, reqs: seq<Request>, node: Node, steps: seq<Step>)
    requires Indexed(env, node.tables) && Exec(env, reqs, node, steps).Some?
    ensures Inv(env, reqs, node.tables.peers, Exec(env, reqs, node, steps).value)
  {
    if steps != [] {
      var n := |steps| - 1;
      RunInv(env, reqs, node, steps[..n]);
      var s := Exec(env, reqs, node, steps[..n]).value;
      match steps[n] {
        case Check(_) => CheckInv(env, reqs, node.tables.peers, s, steps[n]);
        case Append(_) => AppendInv(env, reqs, node.tables.peers, s, steps[n]);
        case Route(_, _, _) =>
      }
    }
  }

  /** Two requests of one ID or name, of which the later to append had passed its checks before the other appended. */
  ghost predicate Raced(env: Env, reqs: seq<Request>, s: State, i: nat, j: nat) {
    && i < j < |s.added| && s.added[j] in s.seen && s.seen[s.added[j]] <= i
    && Decodes(env, reqs, s.added[i]) && Decodes(env, reqs, s.added[j])
    && Clash(PeerOf(env, reqs[s.added[i]]), PeerOf(env, reqs[s.added[j]]))
  }

  /**
   * IDs and names that were distinct stay so, under every schedule, if and only if no two requests for
   * the same ID or name overlapped, both passing their checks before either had appended. The indices
   * agree with the list under every schedule.
   */
  lemma {:induction false} DistinctUnlessRaced(env: Env, reqs: seq<Request>, node: Node, steps: seq<Step>)
    requires Indexed(env, node.tables) && Distinct(node.tables.peers) && Exec(env, reqs, node, steps).Some?
    ensures var s := Exec(env, reqs, node, steps).value;
            && Indexed(env, s.node.tables) && node.tables.peers <= s.node.tables.peers
            && (Distinct(s.node.tables.peers) <==> forall i, j :: !Raced(env, reqs, s, i, j))
  {
    RunInv(env, reqs, node, steps);
    DistinctIff(env, reqs, node.tables.peers, Exec(env, reqs, node, steps).value);
  }

  lemma {:induction false} DistinctIff(env: Env, reqs: seq<Request>, first: seq<Peer>, s: State)
    requires ListOk(env, reqs, first, s.node.tables.peers, s.added) && SeenOk(env, reqs, |first|, s) && Distinct(first)
    ensures Distinct(s.node.tables.peers) <==> forall i, j :: !Raced(env, reqs, s, i, j)
  {
    var peers := s.node.tables.peers;
    if !Distinct(peers) {
      var a, b :| 0 <= a < b < |peers| && Clash(peers[a], peers[b]);
      ClashRaced(env, reqs, first, s, a, b);
    }
    if i, j :| Raced(env, reqs, s, i, j) {
      assert Clash(peers[|first| + i], peers[|first| + j]);
    }
  }

  lemma {:induction false} ClashRaced(env: Env, reqs: seq<Request>, first: seq<Peer>, s: State, a: nat, b: nat)
    requires ListOk(env, reqs, first, s.node.tables.peers, s.added) && SeenOk(env, reqs, |first|, s)
    requires Distinct(first) && a < b < |s.node.tables.peers| && Clash(s.node.tables.peers[a], s.node.tables.peers[b])
    ensures |first| <= a && Raced(env, reqs, s, a - |first|, b - |first|)
  {
    if b < |first| {
      assert false;
    } else {
      var t := s.added[b - |first|];
      assert NoClash(env, reqs, |first|, s.node.tables.peers, t, s.seen[t]);
    }
  }

  // Two overlapping requests

  lemma One(env: Env, reqs: seq<Request>, node: Node, past: seq<Step>, s: State, step: Step)
    requires Exec(env, reqs, node, past) == Some(s) && Enabled(env, reqs, s, step)
    ensures Exec(env, reqs, node, past + [step]) == Some(Do(env, reqs, s, step))
  {
    assert (past + [step])[..|past|] == past;
  }

  /** Both check, then both append. */
  function BothAppend(): seq<Step> {
    [Check(0)] + [Check(1)] + [Append(0)] + [Append(1)]
  }

  /** Two requests that each pass their checks alone are both accepted when they overlap. */
  lemma {:induction false} Overlapping(env: Env, reqs: seq<Request>, node: Node) returns (s: State)
    requires |reqs| == 2 && forall t :: 0 <= t < 2 ==> !Rejects(env, node.tables.peers, reqs[t].name, reqs[t].id)
    ensures env.decode(reqs[0].id).Some? && env.decode(reqs[1].id).Some?
    ensures Exec(env, reqs, node, BothAppend()) == Some(s) && s.added == [0, 1] && s.routed == map[]
    ensures var tables := Enlist(env, node.tables, PeerOf(env, reqs[0]), []);
            s.node == node.(tables := Enlist(env, tables, PeerOf(env, reqs[1]), []))
  {
    var s0 := Start(node);
    One(env, reqs, node, [], s0, Check(0));
    assert [] + [Check(0)] == [Check(0)];
    var s1 := Do(env, reqs, s0, Check(0));
    One(env, reqs, node, [Check(0)], s1, Check(1));
    var s2 := Do(env, reqs, s1, Check(1));
    One(env, reqs, node, [Check(0)] + [Check(1)], s2, Append(0));
    var s3 := Do(env, reqs, s2, Append(0));
    One(env, reqs, node, [Check(0)] + [Check(1)] + [Append(0)], s3, Append(1));
    s := Do(env, reqs, s3, Append(1));
  }

  /** So one name can end up with two peers, although each request checks that it is new. */
  lemma {:induction false} DoubledName(env: Env, reqs: seq<Request>, node: Node) returns (s: State)
    requires |reqs| == 2 && reqs[0].name == reqs[1].name
    requires forall t :: 0 <= t < 2 ==> !Rejects(env, node.tables.peers, reqs[t].name, reqs[t].id)
    ensures Exec(env, reqs, node, BothAppend()) == Some(s) && !Distinct(s.node.tables.peers)
  {
    s := Overlapping(env, reqs, node);
    var n := |node.tables.peers|;
    assert s.node.tables.peers[n].name == s.node.tables.peers[n + 1].name;
  }

  /**
   * And a peer can end up without a route although no call failed: after both have appended, both
   * requests route the peer that is last.
   */
  lemma {:induction false} UnroutedPeer(env: Env, reqs: seq<Request>, node: Node) returns (s: State)
    requires |reqs| == 2 && forall t :: 0 <= t < 2 ==> !Rejects(env, node.tables.peers, reqs[t].name, reqs[t].id)
    requires env.decode(reqs[0].id).Some? && env.decode(reqs[1].id).Some? && node.tun == {}
    requires PeerOf(env, reqs[0]).addr4 != PeerOf(env, reqs[1]).addr4
    ensures Exec(env, reqs, node, BothAppend() + [Route(0, false, false)] + [Route(1, false, false)]) == Some(s)
    ensures s.routed == map[0 := PeerOf(env, reqs[1]), 1 := PeerOf(env, reqs[1])]
    ensures Missing(s.node, Host4(PeerOf(env, reqs[0])))
    ensures s.node.tun == {Host4(PeerOf(env, reqs[1])), Host6(PeerOf(env, reqs[1]))}
  {
    var s4 := Overlapping(env, reqs, node);
    One(env, reqs, node, BothAppend(), s4, Route(0, false, false));
    var s5 := Do(env, reqs, s4, Route(0, false, false));
    One(env, reqs, node, BothAppend() + [Route(0, false, false)], s5, Route(1, false, false));
    s := Do(env, reqs, s5, Route(1, false, false));
    LostRoute(env, node.tables, PeerOf(env, reqs[0]), PeerOf(env, reqs[1]));
  }

  lemma LostRoute(env: Env, t: Tables, p: Peer, q: Peer)
    requires p == MkPeer(p.id, p.name) && q == MkPeer(q.id, q.name) && p.addr4 != q.addr4
    ensures Host4(p) != Host4(q) && Host4(p) != Host6(q)
    ensures Host4(p) in Enlist(env, Enlist(env, t, p, []), q, []).byRoute
  {
    Addr6Length(p.id);
    Addr6Length(q.id);
    assert |Host4(p).ip| == 4 && |Host6(q).ip| == 16;
  }

  /** A request routes its own peer exactly when no other has appended since it did. */
  lemma {:induction false} RoutesOwn(env: Env, reqs: seq<Request>, node: Node, steps: seq<Step>, step: Step)
    requires Indexed(env, node.tables) && Exec(env, reqs, node, steps).Some? && step.Route?
    requires Enabled(env, reqs, Exec(env, reqs, node, steps).value, step)
    ensures var s := Exec(env, reqs, node, steps).value;
            && Decodes(env, reqs, step.t) && s.added != [] && Decodes(env, reqs, s.added[|s.added| - 1])
            && Do(env, reqs, s, step).routed[step.t] == PeerOf(env, reqs[s.added[|s.added| - 1]])
            && (Distinct(s.node.tables.peers) ==>
                  (Do(env, reqs, s, step).routed[step.t] == PeerOf(env, reqs[step.t]) <==>
                   s.added[|s.added| - 1] == step.t))
  {
    RunList(env, reqs, node, steps);
    RoutesLast(env, reqs, node.tables.peers, Exec(env, reqs, node, steps).value, step);
  }

  lemma RunList(env: Env, reqs: seq<Request>, node: Node, steps: seq<Step>)
    requires Indexed(env, node.tables) && Exec(env, reqs, node, steps).Some?
    ensures var s := Exec(env, reqs, node, steps).value;
            ListOk(env, reqs, node.tables.peers, s.node.tables.peers, s.added)
  {
    RunInv(env, reqs, node, steps);
  }

  lemma RoutesLast(env: Env, reqs: seq<Request>, first: seq<Peer>, s: State, step: Step)
    requires ListOk(env, reqs, first, s.node.tables.peers, s.added) && step.Route? && Enabled(env, reqs, s, step)
    ensures Decodes(env, reqs, step.t) && s.added != [] && Decodes(env, reqs, s.added[|s.added| - 1])
    ensures Do(env, reqs, s, step).routed[step.t] == PeerOf(env, reqs[s.added[|s.added| - 1]])
    ensures Distinct(s.node.tables.peers) ==>
              (Do(env, reqs, s, step).routed[step.t] == PeerOf(env, reqs[step.t]) <==>
               s.added[|s.added| - 1] == step.t)
  {
    OwnIsLast(env, reqs, first, s.node.tables.peers, s.added, step.t);
  }

  /** The routes that a request adds are those of the peer that it routes, unless a call fails. */
  lemma RouteAdds(env: Env, reqs: seq<Request>, s: State, step: Step)
    requires Enabled(env, reqs, s, step) && step.Route?
    ensures var s' := Do(env, reqs, s, step);
            var p := s'.routed[step.t];
            && s'.node.tables == s.node.tables && p in s.node.tables.peers
            && s.node.tun <= s'.node.tun <= s.node.tun + {Host4(p), Host6(p)}
            && (!step.fails4 ==> Host4(p) in s'.node.tun) && (!step.fails6 ==> Host6(p) in s'.node.tun)
            && (step.fails4 && Host4(p) != Host6(p) ==> (Host4(p) in s'.node.tun <==> Host4(p) in s.node.tun))
  {
  }

  lemma OwnIsLast(env: Env, reqs: seq<Request>, first: seq<Peer>, peers: seq<Peer>, added: seq<nat>, t: nat)
    requires ListOk(env, reqs, first, peers, added) && t in added
    ensures Decodes(env, reqs, t) && Decodes(env, reqs, added[|added| - 1]) && peers != []
    ensures peers[|peers| - 1] == PeerOf(env, reqs[added[|added| - 1]])
    ensures Distinct(peers) ==> (peers[|peers| - 1] == PeerOf(env, reqs[t]) <==> added[|added| - 1] == t)
  {
    var i :| 0 <= i < |added| && added[i] == t;
    assert peers[|first| + i] == PeerOf(env, reqs[t]);
    assert peers[|first| + |added| - 1] == PeerOf(env, reqs[added[|added| - 1]]);
  }
}
