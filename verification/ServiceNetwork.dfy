/**
 * The service network of one node: which proxy answers on which service address and port. The user
 * space network stack is represented by the calls made on it.
 */
module ServiceNetwork {
  import opened Common
  import opened Addresses
  import PeerTables

  /** Who a connection is handed to; `Nowhere` is the zero proxy, whose handler is nil. */
  datatype Proxy = Nowhere | Remote(peer: Bytes, svcId: Bytes) | Service(handle: nat)

  /** A listener; `at` is the number of addresses that the network stack had been given when it was bound. */
  datatype Binding = Binding(addr: Bytes, port: nat, proxy: Proxy, at: nat)

  datatype Registration = Registration(name: Bytes, proxy: Proxy)

  datatype Answer = True | False | Panic

  /**
   * `added` and `bound` are the addresses and listeners given to the network stack, in order; `regs`
   * is the history of registrations; a panic ends the process.
   */
  datatype Net = Net(
    activeAddrs: set<Bytes>, activePorts: map<Bytes, set<nat>>, listeners: map<Bytes, Proxy>,
    added: seq<Bytes>, bound: seq<Binding>, regs: seq<Registration>, dead: bool)

  const FRESH := Net({}, map[], map[], [], [], [], false)

  type ByNetID = map<Bytes, PeerTables.Peer>

  datatype Op =
    | Register(name: Bytes, proxy: Proxy)
    | Ensure(addr: Bytes, port: nat, byNetID: ByNetID, listenFails: bool)

  predicate Active(s: Net, addr: Bytes, port: nat) {
    addr in s.activeAddrs && addr in s.activePorts && port in s.activePorts[addr]
  }

  /** The proxy for an address, unless it names a service of this node that does not exist. */
  function Route(self: Bytes, listeners: map<Bytes, Proxy>, byNetID: ByNetID, addr: Bytes): Option<Proxy>
    requires |addr| == 16
  {
    var netId, svcId := addr[10..14], addr[14..16];
    if netId == self then
      if svcId in listeners then Some(listeners[svcId]) else None
    else if netId in byNetID then Some(Remote(byNetID[netId].id, svcId))
    else Some(Nowhere)
  }

  function DoEnsure(self: Bytes, s: Net, addr: Bytes, port: nat, byNetID: ByNetID, listenFails: bool): (Net, Answer)
    requires |addr| == 16
  {
    if Active(s, addr, port) then (s, True)
    else
      match Route(self, s.listeners, byNetID, addr)
      case None => (s, False)
      case Some(proxy) =>
        var known := addr in s.activeAddrs;
        var ports := if known && addr in s.activePorts then s.activePorts[addr] else {};
        var added := if known then s.added else s.added + [addr];
        (s.(activeAddrs := s.activeAddrs + {addr},
            activePorts := s.activePorts[addr := ports + {port}],
            added := added,
            bound := if listenFails then s.bound else s.bound + [Binding(addr, port, proxy, |added|)],
            dead := listenFails),
         if listenFails then Panic else True)
  }

  predicate WellTyped(op: Op) {
    op.Ensure? ==> |op.addr| == 16
  }

  function Do(self: Bytes, s: Net, op: Op): Net
    requires WellTyped(op)
  {
    if s.dead then s
    else
      match op
      case Register(name, proxy) =>
        s.(listeners := s.listeners[ServiceID(name) := proxy], regs := s.regs + [Registration(name, proxy)])
      case Ensure(addr, port, byNetID, listenFails) => DoEnsure(self, s, addr, port, byNetID, listenFails).0
  }

  function Run(self: Bytes, s: Net, ops: seq<Op>): Net
    requires forall i :: 0 <= i < |ops| ==> WellTyped(ops[i])
  {
    if ops == [] then s else Do(self, Run(self, s, ops[..|ops| - 1]), ops[|ops| - 1])
  }

  /** The last proxy registered under a service ID. */
  function LastReg(regs: seq<Registration>, id: Bytes): Option<Proxy> {
    if regs == [] then None
    else if ServiceID(regs[|regs| - 1].name) == id then Some(regs[|regs| - 1].proxy)
    else LastReg(regs[..|regs| - 1], id)
  }

  class ServiceNet {
    const self: Bytes
    var activeAddrs: set<Bytes>
    var activePorts: map<Bytes, set<nat>>
    var listeners: map<Bytes, Proxy>
    var added: seq<Bytes>
    var bound: seq<Binding>
    var dead: bool
    ghost var regs: seq<Registration>

    constructor (id: Bytes)
      ensures View() == FRESH && self == NetID(id)
    {
      self := Addr6(id)[12..16];
      activeAddrs, activePorts, listeners := {}, map[], map[];
      added, bound, regs, dead := [], [], [], false;
    }

    ghost function View(): Net
      reads this
    {
      Net(activeAddrs, activePorts, listeners, added, bound, regs, dead)
    }

    method Register(name: Bytes, proxy: Proxy)
      requires !dead
      modifies this
      ensures View() == Do(self, old(View()), Op.Register(name, proxy))
    {
      var svcId := MkServiceID(name);
      listeners := listeners[svcId[..] := proxy];
      regs := regs + [Registration(name, proxy)];
    }

    method EnsureListener(addr: Bytes, port: nat, byNetID: ByNetID, listenFails: bool) returns (answer: Answer)
      requires |addr| == 16 && !dead && activePorts.Keys == activeAddrs
      modifies this
      ensures (View(), answer) == DoEnsure(self, old(View()), addr, port, byNetID, listenFails)
    {
      var registerAddr := true;
      if addr in activeAddrs {
        if port in activePorts[addr] {
          return True;
        }
        registerAddr := false;
      }
      var netId, svcId := addr[10..14], addr[14..16];
      var proxy := Nowhere;
      if netId == self {
        if svcId in listeners {
          proxy := listeners[svcId];
        } else {
          return False;
        }
      } else if netId in byNetID {
        proxy := Remote(byNetID[netId].id, svcId);
      }
      ghost var ports := if registerAddr then {} else activePorts[addr];
      if registerAddr {
        added := added + [addr];
        activeAddrs := activeAddrs + {addr};
        activePorts := activePorts[addr := {}];
      }
      activePorts := activePorts[addr := activePorts[addr] + {port}];
      assert activePorts == old(activePorts)[addr := ports + {port}];
      assert activeAddrs == old(activeAddrs) + {addr};
      if listenFails {
        dead := true;
        return Panic;
      }
      bound := bound + [Binding(addr, port, proxy, |added|)];
      return True;
    }
  }

  // What every run keeps

  ghost predicate AddrsOk(s: Net) {
    && s.activePorts.Keys == s.activeAddrs
    && (forall addr :: addr in s.activeAddrs <==> addr in s.added)
    && (forall i, j :: 0 <= i < j < |s.added| ==> s.added[i] != s.added[j])
  }

  /** Each listener was bound after its address had been given to the network stack. */
  ghost predicate PlacedOk(s: Net) {
    forall i :: 0 <= i < |s.bound| ==> s.bound[i].at <= |s.added| && s.bound[i].addr in s.added[..s.bound[i].at]
  }

  /** Each address and port is listened on at most once, and while the process lives those are the active ones. */
  ghost predicate BoundOk(s: Net) {
    && (forall i :: 0 <= i < |s.bound| ==> Active(s, s.bound[i].addr, s.bound[i].port))
    && (forall i, j :: 0 <= i < j < |s.bound| ==>
          s.bound[i].addr != s.bound[j].addr || s.bound[i].port != s.bound[j].port)
    && (!s.dead ==> forall addr, port :: Active(s, addr, port) ==> Bound(s, addr, port))
  }

  ghost predicate Bound(s: Net, addr: Bytes, port: nat) {
    exists i :: 0 <= i < |s.bound| && s.bound[i].addr == addr && s.bound[i].port == port
  }

  ghost predicate ListenersOk(s: Net) {
    forall id :: (id in s.listeners <==> LastReg(s.regs, id).Some?)
      && (id in s.listeners ==> LastReg(s.regs, id) == Some(s.listeners[id]))
  }

  ghost predicate Inv(s: Net) {
    AddrsOk(s) && BoundOk(s) && PlacedOk(s) && ListenersOk(s)
  }

  lemma DoInv(self: Bytes, s: Net, op: Op)
    requires Inv(s) && WellTyped(op)
    ensures Inv(Do(self, s, op))
  {
    if !s.dead {
      match op {
        case Register(name, proxy) => RegisterInv(self, s, name, proxy);
        case Ensure(addr, port, byNetID, listenFails) => EnsureInv(self, s, op);
      }
    }
  }

  lemma RegisterInv(self: Bytes, s: Net, name: Bytes, proxy: Proxy)
    requires Inv(s) && !s.dead
    ensures Inv(Do(self, s, Register(name, proxy)))
  {
    var s' := Do(self, s, Register(name, proxy));
    assert s'.regs[..|s.regs|] == s.regs;
    forall addr, port | Active(s', addr, port)
      ensures Bound(s', addr, port)
    {
      assert Active(s, addr, port) && Bound(s, addr, port);
    }
  }

  lemma EnsureInv(self: Bytes, s: Net, op: Op)
    requires Inv(s) && !s.dead && op.Ensure? && WellTyped(op)
    ensures Inv(Do(self, s, op))
  {
    EnsureAddrs(self, s, op);
    EnsurePlaced(self, s, op);
    EnsureBound(self, s, op);
  }

  lemma EnsureAddrs(self: Bytes, s: Net, op: Op)
    requires AddrsOk(s) && !s.dead && op.Ensure? && WellTyped(op)
    ensures AddrsOk(Do(self, s, op))
  {
  }

  lemma EnsurePlaced(self: Bytes, s: Net, op: Op)
    requires AddrsOk(s) && PlacedOk(s) && !s.dead && op.Ensure? && WellTyped(op)
    ensures PlacedOk(Do(self, s, op))
  {
    var s' := Do(self, s, op);
    forall i | 0 <= i < |s'.bound|
      ensures s'.bound[i].at <= |s'.added| && s'.bound[i].addr in s'.added[..s'.bound[i].at]
    {
      if i < |s.bound| {
        assert s'.added[..s.bound[i].at] == s.added[..s.bound[i].at];
      } else {
        assert s'.added[..|s'.added|] == s'.added;
      }
    }
  }

  lemma EnsureBound(self: Bytes, s: Net, op: Op)
    requires AddrsOk(s) && BoundOk(s) && !s.dead && op.Ensure? && WellTyped(op)
    ensures BoundOk(Do(self, s, op))
  {
    var s' := Do(self, s, op);
    if s' != s {
      assert forall addr, port :: Active(s, addr, port) ==> Active(s', addr, port);
      assert !Active(s, op.addr, op.port) && Active(s', op.addr, op.port);
      forall addr, port | !s'.dead && Active(s', addr, port)
        ensures Bound(s', addr, port)
      {
        StillBound(self, s, op, addr, port);
      }
    }
  }

  lemma StillBound(self: Bytes, s: Net, op: Op, addr: Bytes, port: nat)
    requires AddrsOk(s) && BoundOk(s) && !s.dead && op.Ensure? && WellTyped(op)
    requires var s' := Do(self, s, op); s' != s && !s'.dead && Active(s', addr, port)
    ensures Bound(Do(self, s, op), addr, port)
  {
    var s' := Do(self, s, op);
    if addr == op.addr && port == op.port {
      assert s'.bound[|s.bound|].addr == addr;
    } else {
      assert Active(s, addr, port) && Bound(s, addr, port);
      var i :| 0 <= i < |s.bound| && s.bound[i].addr == addr && s.bound[i].port == port;
      assert s'.bound[i] == s.bound[i];
    }
  }

  /** Over every run the invariant holds: see `AddrsOk`, `BoundOk` and `ListenersOk`. */
  lemma {:induction false} RunInv(self: Bytes, ops: seq<Op>)
    requires forall i :: 0 <= i < |ops| ==> WellTyped(ops[i])
    ensures Inv(Run(self, FRESH, ops))
  {
    if ops != [] {
      RunInv(self, ops[..|ops| - 1]);
      DoInv(self, Run(self, FRESH, ops[..|ops| - 1]), ops[|ops| - 1]);
    }
  }

  /** Once a pair has been answered with true, it always is, whatever happens, and nothing changes. */
  lemma {:induction false} TrueStaysTrue(self: Bytes, s: Net, op: Op, ops: seq<Op>)
    requires !s.dead && op.Ensure? && WellTyped(op)
    requires forall i :: 0 <= i < |ops| ==> WellTyped(ops[i])
    requires DoEnsure(self, s, op.addr, op.port, op.byNetID, op.listenFails).1.True?
    ensures var s' := Run(self, Do(self, s, op), ops);
            Active(s', op.addr, op.port) &&
            forall byNetID, fails :: DoEnsure(self, s', op.addr, op.port, byNetID, fails) == (s', True)
  {
    if ops != [] {
      TrueStaysTrue(self, s, op, ops[..|ops| - 1]);
    }
  }

  /** Asking for a service that this node does not have changes nothing. */
  lemma UnknownServiceRefused(self: Bytes, s: Net, addr: Bytes, port: nat, byNetID: ByNetID, fails: bool)
    requires |addr| == 16 && ListenersOk(s)
    ensures DoEnsure(self, s, addr, port, byNetID, fails).1.False? <==>
            addr[10..14] == self && LastReg(s.regs, addr[14..16]).None? && !Active(s, addr, port)
    ensures DoEnsure(self, s, addr, port, byNetID, fails).1.False? ==>
            DoEnsure(self, s, addr, port, byNetID, fails).0 == s
  {
  }

  /** When a call answers what, and that it answers nothing else. */
  lemma AnswerIs(self: Bytes, s: Net, addr: Bytes, port: nat, byNetID: ByNetID, fails: bool)
    requires |addr| == 16 && ListenersOk(s)
    ensures var (s', answer) := DoEnsure(self, s, addr, port, byNetID, fails);
            var known := addr[10..14] != self || LastReg(s.regs, addr[14..16]).Some?;
            && (answer.True? <==> Active(s, addr, port) || (known && !fails))
            && (answer.Panic? <==> !Active(s, addr, port) && known && fails)
            && (answer.False? <==> !Active(s, addr, port) && !known)
            && (!s.dead ==> (s'.dead <==> answer.Panic?))
  {
  }

  function Regs(ops: seq<Op>): seq<Registration> {
    if ops == [] then []
    else
      var last := ops[|ops| - 1];
      Regs(ops[..|ops| - 1]) + if last.Register? then [Registration(last.name, last.proxy)] else []
  }

  /** The registrations of a live run are all that were made. */
  lemma {:induction false} RegsAre(self: Bytes, ops: seq<Op>)
    requires forall i :: 0 <= i < |ops| ==> WellTyped(ops[i])
    ensures !Run(self, FRESH, ops).dead ==> Run(self, FRESH, ops).regs == Regs(ops)
  {
    if ops != [] {
      var n := |ops| - 1;
      RegsAre(self, ops[..n]);
      RegsStep(self, Run(self, FRESH, ops[..n]), ops[n]);
    }
  }

  lemma RegsStep(self: Bytes, s: Net, op: Op)
    requires WellTyped(op)
    ensures !Do(self, s, op).dead ==>
              !s.dead && Do(self, s, op).regs ==
              s.regs + if op.Register? then [Registration(op.name, op.proxy)] else []
  {
  }

  // Who a connection is handed to

  /** The proxy behind the listener bound first to an address and port. */
  function HandlerOf(bound: seq<Binding>, addr: Bytes, port: nat): Option<Proxy> {
    if bound == [] then None
    else
      var b := bound[|bound| - 1];
      match HandlerOf(bound[..|bound| - 1], addr, port)
      case Some(proxy) => Some(proxy)
      case None => if b.addr == addr && b.port == port then Some(b.proxy) else None
  }

  lemma HandlerSnoc(bound: seq<Binding>, b: Binding, addr: Bytes, port: nat)
    ensures HandlerOf(bound + [b], addr, port) ==
            if HandlerOf(bound, addr, port).Some? then HandlerOf(bound, addr, port)
            else if b.addr == addr && b.port == port then Some(b.proxy) else None
  {
    assert (bound + [b])[..|bound|] == bound;
  }

  lemma {:induction false} HandlerBound(bound: seq<Binding>, addr: Bytes, port: nat)
    ensures HandlerOf(bound, addr, port).Some? <==>
            exists i :: 0 <= i < |bound| && bound[i].addr == addr && bound[i].port == port
  {
    if bound != [] {
      var n := |bound| - 1;
      HandlerBound(bound[..n], addr, port);
      assert bound == bound[..n] + [bound[n]];
    }
  }

  /** In a live run the pairs with a handler are the active ones. */
  lemma HandlerActive(s: Net, addr: Bytes, port: nat)
    requires BoundOk(s)
    ensures HandlerOf(s.bound, addr, port).Some? ==> Active(s, addr, port)
    ensures !s.dead && Active(s, addr, port) ==> HandlerOf(s.bound, addr, port).Some?
  {
    HandlerBound(s.bound, addr, port);
    if !s.dead && Active(s, addr, port) {
      assert Bound(s, addr, port);
    }
  }

  /**
   * What the first packet to any service address binds there: to a net ID of another node, the named
   * service on the peer that the net ID stands for, if there is one; to one's own, the service last
   * registered under the ID.
   */
  lemma EnsureBinds(self: Bytes, s: Net, addr: Bytes, port: nat, byNetID: ByNetID)
    requires BoundOk(s) && ListenersOk(s) && !s.dead && |addr| == 16 && !Active(s, addr, port)
    ensures HandlerOf(s.bound, addr, port).None?
    ensures var (s', answer) := DoEnsure(self, s, addr, port, byNetID, false);
            var netId, svcId := addr[10..14], addr[14..16];
            && HandlerOf(s'.bound, addr, port) ==
               (if netId == self then LastReg(s.regs, svcId)
                else if netId in byNetID then Some(Remote(byNetID[netId].id, svcId))
                else Some(Nowhere))
            && answer == if HandlerOf(s'.bound, addr, port).Some? then True else False
  {
    HandlerActive(s, addr, port);
    RouteIs(self, s, byNetID, addr);
    NewHandler(self, s, addr, port, byNetID);
  }

  lemma RouteIs(self: Bytes, s: Net, byNetID: ByNetID, addr: Bytes)
    requires ListenersOk(s) && |addr| == 16
    ensures var netId, svcId := addr[10..14], addr[14..16];
            Route(self, s.listeners, byNetID, addr) ==
            if netId == self then LastReg(s.regs, svcId)
            else if netId in byNetID then Some(Remote(byNetID[netId].id, svcId))
            else Some(Nowhere)
  {
  }

  /** A new binding hands its pair to the proxy that the address stands for. */
  lemma NewHandler(self: Bytes, s: Net, addr: Bytes, port: nat, byNetID: ByNetID)
    requires !s.dead && |addr| == 16 && !Active(s, addr, port) && HandlerOf(s.bound, addr, port).None?
    ensures var (s', answer) := DoEnsure(self, s, addr, port, byNetID, false);
            && HandlerOf(s'.bound, addr, port) == Route(self, s.listeners, byNetID, addr)
            && answer == if Route(self, s.listeners, byNetID, addr).Some? then True else False
  {
    var proxy := Route(self, s.listeners, byNetID, addr);
    if proxy.Some? {
      var at := if addr in s.activeAddrs then |s.added| else |s.added| + 1;
      HandlerSnoc(s.bound, Binding(addr, port, proxy.value, at), addr, port);
    }
  }

  /**
   * When a new binding has no usable handler: exactly when the net ID is another node's and unknown,
   * or when the local service was itself registered with an empty proxy. The call answers true.
   */
  lemma NilHandler(self: Bytes, s: Net, addr: Bytes, port: nat, byNetID: ByNetID)
    requires BoundOk(s) && ListenersOk(s) && !s.dead && |addr| == 16 && !Active(s, addr, port)
    ensures var (s', answer) := DoEnsure(self, s, addr, port, byNetID, false);
            && (HandlerOf(s'.bound, addr, port) == Some(Nowhere) <==>
                  if addr[10..14] == self then LastReg(s.regs, addr[14..16]) == Some(Nowhere)
                  else addr[10..14] !in byNetID)
            && (HandlerOf(s'.bound, addr, port) == Some(Nowhere) ==> answer.True?)
  {
    EnsureBinds(self, s, addr, port, byNetID);
  }

  /** Once a pair has a handler, no later registration, peer or packet changes it. */
  lemma {:induction false} HandlerStays(self: Bytes, s: Net, ops: seq<Op>, addr: Bytes, port: nat)
    requires forall i :: 0 <= i < |ops| ==> WellTyped(ops[i])
    ensures s.bound <= Run(self, s, ops).bound
    ensures HandlerOf(s.bound, addr, port).Some? ==>
              HandlerOf(Run(self, s, ops).bound, addr, port) == HandlerOf(s.bound, addr, port)
  {
    if ops != [] {
      var n := |ops| - 1;
      HandlerStays(self, s, ops[..n], addr, port);
      BoundGrows(self, Run(self, s, ops[..n]), ops[n], addr, port);
    }
  }

  lemma BoundGrows(self: Bytes, s: Net, op: Op, addr: Bytes, port: nat)
    requires WellTyped(op)
    ensures s.bound <= Do(self, s, op).bound
    ensures HandlerOf(s.bound, addr, port).Some? ==>
              HandlerOf(Do(self, s, op).bound, addr, port) == HandlerOf(s.bound, addr, port)
  {
    if Do(self, s, op).bound != s.bound {
      HandlerSnoc(s.bound, Do(self, s, op).bound[|s.bound|], addr, port);
      assert Do(self, s, op).bound == s.bound + [Do(self, s, op).bound[|s.bound|]];
    }
  }

  /** An address contacted before its peer is known keeps the empty handler when the peer has been added. */
  lemma ContactedTooEarly(self: Bytes, s: Net, addr: Bytes, port: nat, byNetID: ByNetID, later: seq<Op>)
    requires BoundOk(s) && ListenersOk(s) && !s.dead && |addr| == 16 && !Active(s, addr, port)
    requires addr[10..14] != self && addr[10..14] !in byNetID
    requires forall i :: 0 <= i < |later| ==> WellTyped(later[i])
    ensures var s' := DoEnsure(self, s, addr, port, byNetID, false).0;
            HandlerOf(Run(self, s', later).bound, addr, port) == Some(Nowhere)
  {
    NilHandler(self, s, addr, port, byNetID);
    HandlerStays(self, DoEnsure(self, s, addr, port, byNetID, false).0, later, addr, port);
  }

  /** The case of the first packet of a node, to the service "1" of the node with the empty ID. */
  lemma NilHandlerExample(later: seq<Op>)
    requires forall i :: 0 <= i < |later| ==> WellTyped(later[i])
    ensures |ServiceAddr6([], [0x31])| == 16
    ensures var s := DoEnsure([0, 0, 0, 0], FRESH, ServiceAddr6([], [0x31]), 80, map[], false).0;
            HandlerOf(Run([0, 0, 0, 0], s, later).bound, ServiceAddr6([], [0x31]), 80) == Some(Nowhere)
  {
    ServiceParts([], [0x31]);
    assert NetID([])[0] == 0xde;
    RunInv([0, 0, 0, 0], []);
    ContactedTooEarly([0, 0, 0, 0], FRESH, ServiceAddr6([], [0x31]), 80, map[], later);
  }

  /** Operation `j` of a run is the packet that got an address and port its listener. */
  ghost predicate Contact(self: Bytes, ops: seq<Op>, j: nat, addr: Bytes, port: nat)
    requires forall i :: 0 <= i < |ops| ==> WellTyped(ops[i])
  {
    && j < |ops| && ops[j].Ensure? && ops[j].addr == addr && ops[j].port == port && !ops[j].listenFails
    && !Run(self, FRESH, ops[..j]).dead && !Active(Run(self, FRESH, ops[..j]), addr, port)
  }

  /**
   * Every handler in every run is the one that the address stood for when it was first contacted, by
   * the registrations and the peers of that moment.
   */
  lemma {:induction false} HandlerFrom(self: Bytes, ops: seq<Op>, addr: Bytes, port: nat) returns (j: nat)
    requires forall i :: 0 <= i < |ops| ==> WellTyped(ops[i])
    requires HandlerOf(Run(self, FRESH, ops).bound, addr, port).Some?
    ensures Contact(self, ops, j, addr, port)
    ensures HandlerOf(Run(self, FRESH, ops).bound, addr, port) ==
            Route(self, Run(self, FRESH, ops[..j]).listeners, ops[j].byNetID, addr)
  {
    var n := |ops| - 1;
    var s := Run(self, FRESH, ops[..n]);
    if HandlerOf(s.bound, addr, port).Some? {
      j := HandlerFrom(self, ops[..n], addr, port);
      BoundGrows(self, s, ops[n], addr, port);
      assert ops[..n][..j] == ops[..j];
    } else {
      j := n;
      HandlerSnoc(s.bound, Run(self, FRESH, ops).bound[|s.bound|], addr, port);
    }
  }
}
