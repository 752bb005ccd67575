/**
 * The handshake that connects a client of a service address to the service on another node. Caller
 * and callee take steps in any order, services are registered at the callee at any time, and every
 * call on the stream may fail.
 */
module ServiceDial {
  import opened Common
  import opened Addresses
  import opened ServiceNetwork

  const RS_OK: bv8 := 0xf1
  const RS_NOT_SUPPORTED: bv8 := 0xf2

  datatype Caller = Opening | SendingId | Awaiting | Piping | CallerDone

  datatype Callee =
    | Unopened
    | ReadingId
    | Looking(id: Bytes)
    | Replying
    | Handling           // the proxy's handler has the stream
    | CalleeDone

  /** The proxy found for the connection, and how many registrations had been made by then. */
  datatype Found = Found(proxy: Option<Proxy>, at: nat)

  /**
   * `up` and `down` are the bytes the stream has taken from the caller and the callee; `payload` is
   * the part of `up` that came from the caller's pipe.
   */
  datatype State = State(
    caller: Caller, callee: Callee, dialled: bool, up: Bytes, upRead: nat, down: Bytes, downRead: nat,
    regs: seq<Registration>, found: Option<Found>, payload: Bytes)

  const INIT := State(Opening, Unopened, false, [], 0, [], 0, [], None, [])

  datatype Step =
    | Open(ok: bool)
    | SendId(k: nat, ok: bool)
    | ReadStatus(got: bool)
    | PipeUp(chunk: Bytes)
    | Hangup
    | Accept(known: bool)
    | ReadId(n: nat, ok: bool)
    | Look
    | Reply(k: nat, ok: bool)
    | HandlerReturns
    | RegisterAt(name: Bytes, proxy: Proxy)

  /** `id` is the service ID that the caller's proxy was made for. */
  predicate Enabled(id: Bytes, s: State, step: Step)
    requires |id| == 2
  {
    match step
    case Open(_) => s.caller.Opening?
    case SendId(k, ok) => s.caller.SendingId? && k <= 2 && (ok ==> k == 2)
    case ReadStatus(got) => s.caller.Awaiting? && (got ==> s.downRead < |s.down|)
    case PipeUp(_) => s.caller.Piping?
    case Hangup => s.caller.Piping?
    case Accept(_) => s.dialled && s.callee.Unopened?
    case ReadId(n, _) => s.callee.ReadingId? && n <= 2 && s.upRead + n <= |s.up|
    case Look => s.callee.Looking?
    case Reply(k, ok) => s.callee.Replying? && s.found.Some? && k <= 1 && (ok ==> k == 1)
    case HandlerReturns => s.callee.Handling?
    case RegisterAt(_, _) => true
  }

  function Do(id: Bytes, s: State, step: Step): State
    requires |id| == 2 && Enabled(id, s, step)
  {
    match step
    case Open(ok) => if ok then s.(caller := SendingId, dialled := true) else s.(caller := CallerDone)
    case SendId(k, ok) => s.(up := s.up + id[..k], caller := if ok then Awaiting else CallerDone)
    case ReadStatus(got) =>
      if !got then s.(caller := CallerDone)
      else s.(downRead := s.downRead + 1,
              caller := if s.down[s.downRead] == RS_OK then Piping else CallerDone)
    case PipeUp(chunk) => s.(up := s.up + chunk, payload := s.payload + chunk)
    case Hangup => s.(caller := CallerDone)
    case Accept(known) => s.(callee := if known then ReadingId else CalleeDone)
    case ReadId(n, ok) =>
      if !ok then s.(callee := CalleeDone)
      else s.(upRead := s.upRead + n, callee := Looking(s.up[s.upRead..][..n] + [0, 0][n..]))
    case Look => s.(found := Some(Found(LastReg(s.regs, s.callee.id), |s.regs|)), callee := Replying)
    case Reply(k, ok) =>
      var proxy := s.found.value.proxy;
      s.(down := s.down + [if proxy.Some? then RS_OK else RS_NOT_SUPPORTED][..k],
         callee := if ok && proxy.Some? then Handling else CalleeDone)
    case HandlerReturns => s.(callee := CalleeDone)
    case RegisterAt(name, proxy) => s.(regs := s.regs + [Registration(name, proxy)])
  }

  /** The read of the service ID, which the callee does not check, hands out both bytes. */
  predicate WholeId(step: Step) {
    step.ReadId? && step.ok ==> step.n == 2
  }

  function Exec(id: Bytes, steps: seq<Step>): Option<State>
    requires |id| == 2
  {
    if steps == [] then Some(INIT)
    else
      match Exec(id, steps[..|steps| - 1])
      case None => None
      case Some(s) => if Enabled(id, s, steps[|steps| - 1]) then Some(Do(id, s, steps[|steps| - 1])) else None
  }

  ghost predicate UpOk(id: Bytes, s: State)
    requires |id| == 2
  {
    && s.upRead <= |s.up|
    && (s.caller.Opening? || s.caller.SendingId? ==> s.up == [])
    && (s.caller.Awaiting? || s.caller.Piping? ==> s.up == id + s.payload)
    && (if s.payload == [] then s.up <= id else s.up == id + s.payload)
    && (s.callee.Unopened? || s.callee.ReadingId? ==> s.upRead == 0)
    && (s.callee.Looking? || s.callee.Replying? || s.callee.Handling? ==> s.upRead == 2)
    && (s.callee.Looking? ==> s.callee.id == id)
  }

  /** The callee's answer is the one for the registrations made before it looked. */
  ghost predicate FoundOk(id: Bytes, s: State) {
    && (s.found.Some? ==>
          s.found.value.at <= |s.regs| && s.found.value.proxy == LastReg(s.regs[..s.found.value.at], id))
    && (s.callee.Replying? || s.callee.Handling? ==> s.found.Some?)
    && (s.callee.Handling? ==> s.found.value.proxy.Some?)
    && (s.callee.Unopened? || s.callee.ReadingId? || s.callee.Looking? ==> s.found.None?)
  }

  ghost predicate DownOk(s: State) {
    && (s.down != [] ==>
          && s.found.Some? && (s.callee.Handling? || s.callee.CalleeDone?)
          && s.down == [if s.found.value.proxy.Some? then RS_OK else RS_NOT_SUPPORTED])
    && (s.caller.Piping? || s.payload != [] ==> s.down == [RS_OK] && s.downRead == 1)
    && (s.caller.Opening? || s.caller.SendingId? || s.caller.Awaiting? ==> s.downRead == 0 && s.payload == [])
  }

  ghost predicate Inv(id: Bytes, s: State)
    requires |id| == 2
  {
    UpOk(id, s) && FoundOk(id, s) && DownOk(s)
  }

  lemma UpStep(id: Bytes, s: State, step: Step)
    requires |id| == 2 && UpOk(id, s) && DownOk(s) && Enabled(id, s, step) && WholeId(step)
    ensures UpOk(id, Do(id, s, step))
  {
    match step {
      case SendId(k, _) => assert [] + id[..k] == id[..k] && id[..2] == id && id + [] == id;
      case PipeUp(chunk) => assert id + (s.payload + chunk) == id + s.payload + chunk;
      case ReadId(n, ok) =>
        if ok {
          assert s.up[..2] == id && s.up[0..] == s.up;
        }
      case _ =>
    }
  }

  lemma FoundStep(id: Bytes, s: State, step: Step)
    requires |id| == 2 && UpOk(id, s) && FoundOk(id, s) && Enabled(id, s, step)
    ensures FoundOk(id, Do(id, s, step))
  {
    match step {
      case Look => assert s.regs[..|s.regs|] == s.regs;
      case RegisterAt(name, proxy) =>
        if s.found.Some? {
          var at := s.found.value.at;
          assert (s.regs + [Registration(name, proxy)])[..at] == s.regs[..at];
        }
      case _ =>
    }
  }

  lemma DownStep(id: Bytes, s: State, step: Step)
    requires |id| == 2 && FoundOk(id, s) && DownOk(s) && Enabled(id, s, step)
    ensures DownOk(Do(id, s, step))
  {
  }

  lemma {:induction false} RunInv(id: Bytes, steps: seq<Step>)
    requires |id| == 2 && Exec(id, steps).Some?
    requires forall i :: 0 <= i < |steps| ==> WholeId(steps[i])
    ensures Inv(id, Exec(id, steps).value)
  {
    if steps == [] {
      assert INIT.up <= id;
    } else {
      RunInv(id, steps[..|steps| - 1]);
      var s := Exec(id, steps[..|steps| - 1]).value;
      UpStep(id, s, steps[|steps| - 1]);
      FoundStep(id, s, steps[|steps| - 1]);
      DownStep(id, s, steps[|steps| - 1]);
    }
  }

  /**
   * For every service name and every order of steps: a connection that is handled is handled by the
   * proxy last registered, when the callee looked, under the ID of that name, and the proxy is given
   * exactly what the caller piped; the caller pipes nothing before it has read the byte that says so.
   */
  lemma DialReaches(name: Bytes, steps: seq<Step>)
    requires Exec(ServiceID(name), steps).Some?
    requires forall i :: 0 <= i < |steps| ==> WholeId(steps[i])
    ensures var s := Exec(ServiceID(name), steps).value;
            && (s.callee.Handling? ==>
                  s.found.Some? && s.found.value.at <= |s.regs| && s.found.value.proxy.Some?
                  && s.found.value.proxy == LastReg(s.regs[..s.found.value.at], ServiceID(name))
                  && s.upRead == 2 <= |s.up| && s.up[s.upRead..] == s.payload)
            && (s.payload != [] || s.caller.Piping? ==>
                  s.down == [RS_OK] && s.downRead == 1 && s.up == ServiceID(name) + s.payload
                  && s.found.Some? && s.found.value.at <= |s.regs|
                  && LastReg(s.regs[..s.found.value.at], ServiceID(name)).Some?)
            && (s.down == [RS_NOT_SUPPORTED] ==> s.payload == [] && !s.caller.Piping?)
  {
    RunInv(ServiceID(name), steps);
    var s := Exec(ServiceID(name), steps).value;
    if s.callee.Handling? {
      Remaining(ServiceID(name), s.up, s.payload);
    }
  }

  lemma Remaining(id: Bytes, up: Bytes, payload: Bytes)
    requires |id| == 2 <= |up| && (if payload == [] then up <= id else up == id + payload)
    ensures up[2..] == payload
  {
  }

  /**
   * Both halves together, for every connection ever made to a service address of another node: it is
   * handed to the proxy chosen when the address was first contacted, packet `j` of the run. That is a
   * proxy to the named service on the peer known by the net ID at that moment, whatever was registered
   * or added since, so it misses `p` exactly when `p` was not that peer; and if no peer was known, it
   * is the empty one for ever. Over a remote proxy, the service that handles the connection is the one
   * last registered at that peer under the ID of the name.
   */
  lemma ServiceAddressReaches(self: Bytes, ops: seq<ServiceNetwork.Op>, p: Bytes, name: Bytes, port: nat,
                              steps: seq<Step>)
    returns (j: nat)
    requires forall i :: 0 <= i < |ops| ==> WellTyped(ops[i])
    requires forall i :: 0 <= i < |steps| ==> WholeId(steps[i])
    requires NetID(p) != self && HandlerOf(Run(self, FRESH, ops).bound, ServiceAddr6(p, name), port).Some?
    ensures Contact(self, ops, j, ServiceAddr6(p, name), port)
    ensures var proxy := HandlerOf(Run(self, FRESH, ops).bound, ServiceAddr6(p, name), port).value;
            var known := ops[j].byNetID;
            && (proxy == Remote(p, ServiceID(name)) <==> NetID(p) in known && known[NetID(p)].id == p)
            && (proxy == Nowhere <==> NetID(p) !in known)
            && (NetID(p) in known ==> proxy == Remote(known[NetID(p)].id, ServiceID(name)))
            && (proxy.Remote? && |proxy.svcId| == 2 && Exec(proxy.svcId, steps).Some? ==>
                  var s := Exec(proxy.svcId, steps).value;
                  && (s.callee.Handling? ==>
                        s.found.Some? && s.found.value.at <= |s.regs|
                        && s.found.value.proxy == LastReg(s.regs[..s.found.value.at], ServiceID(name)))
                  && (s.payload != [] ==> s.down == [RS_OK] && s.up == ServiceID(name) + s.payload))
  {
    j := HandlerFrom(self, ops, ServiceAddr6(p, name), port);
    ServiceParts(p, name);
    if Exec(ServiceID(name), steps).Some? {
      DialReaches(name, steps);
    }
  }

  // What the history is, and when each side ends

  function Regs(steps: seq<Step>): seq<Registration> {
    if steps == [] then []
    else
      var last := steps[|steps| - 1];
      Regs(steps[..|steps| - 1]) + if last.RegisterAt? then [Registration(last.name, last.proxy)] else []
  }

  function Chunks(steps: seq<Step>): Bytes {
    if steps == [] then []
    else
      var last := steps[|steps| - 1];
      Chunks(steps[..|steps| - 1]) + if last.PipeUp? then last.chunk else []
  }

  /** The registrations are those that were made, and the payload is all that the caller's client sent. */
  lemma {:induction false} HistoryIs(id: Bytes, steps: seq<Step>)
    requires |id| == 2 && Exec(id, steps).Some?
    ensures Exec(id, steps).value.regs == Regs(steps) && Exec(id, steps).value.payload == Chunks(steps)
  {
    if steps != [] {
      HistoryIs(id, steps[..|steps| - 1]);
      HistoryStep(id, Exec(id, steps[..|steps| - 1]).value, steps[|steps| - 1]);
    }
  }

  lemma HistoryStep(id: Bytes, s: State, step: Step)
    requires |id| == 2 && Enabled(id, s, step)
    ensures Do(id, s, step).regs == s.regs + if step.RegisterAt? then [Registration(step.name, step.proxy)] else []
    ensures Do(id, s, step).payload == s.payload + if step.PipeUp? then step.chunk else []
  {
  }

  /** The step ends the caller: a call that failed, or the end of the pipe. */
  predicate CallerEnds(step: Step) {
    match step
    case Open(ok) => !ok
    case SendId(_, ok) => !ok
    case ReadStatus(got) => !got
    case Hangup => true
    case _ => false
  }

  /** The step ends the callee: a stranger, a call that failed, or the end of the handler. */
  predicate CalleeEnds(step: Step) {
    match step
    case Accept(known) => !known
    case ReadId(_, ok) => !ok
    case Reply(_, ok) => !ok
    case HandlerReturns => true
    case _ => false
  }

  predicate CallerEnded(steps: seq<Step>) {
    exists j :: 0 <= j < |steps| && CallerEnds(steps[j])
  }

  predicate CalleeEnded(steps: seq<Step>) {
    exists j :: 0 <= j < |steps| && CalleeEnds(steps[j])
  }

  lemma EndedSnoc(steps: seq<Step>)
    requires steps != []
    ensures var n := |steps| - 1;
            && (CallerEnded(steps) <==> CallerEnded(steps[..n]) || CallerEnds(steps[n]))
            && (CalleeEnded(steps) <==> CalleeEnded(steps[..n]) || CalleeEnds(steps[n]))
  {
    var n := |steps| - 1;
    forall j | 0 <= j < n
      ensures steps[..n][j] == steps[j]
    {
    }
    if CallerEnded(steps[..n]) {
      var j :| 0 <= j < n && CallerEnds(steps[..n][j]);
      assert CallerEnds(steps[j]);
    }
    if CalleeEnded(steps[..n]) {
      var j :| 0 <= j < n && CalleeEnds(steps[..n][j]);
      assert CalleeEnds(steps[j]);
    }
  }

  /** The caller has read an answer other than OK. */
  predicate Declined(s: State) {
    s.downRead > 0 && s.down != [] && s.down[0] != RS_OK
  }

  ghost predicate EndsOk(s: State, callerEnded: bool, calleeEnded: bool) {
    && (s.caller.CallerDone? <==> callerEnded || Declined(s))
    && (s.callee.CalleeDone? <==> calleeEnded || s.down == [RS_NOT_SUPPORTED])
  }

  lemma EndsStep(id: Bytes, s: State, step: Step, callerEnded: bool, calleeEnded: bool)
    requires |id| == 2 && FoundOk(id, s) && DownOk(s) && Enabled(id, s, step)
    requires EndsOk(s, callerEnded, calleeEnded)
    ensures EndsOk(Do(id, s, step), callerEnded || CallerEnds(step), calleeEnded || CalleeEnds(step))
  {
    match step {
      case Reply(k, ok) => assert [] + [RS_OK][..1] == [RS_OK] && [] + [RS_NOT_SUPPORTED][..1] == [RS_NOT_SUPPORTED];
      case _ =>
    }
  }

  /**
   * Each side ends exactly when one of its calls fails, its pipe or handler ends, or the answer is that
   * there is no such service.
   */
  lemma {:induction false} EndsExactly(id: Bytes, steps: seq<Step>)
    requires |id| == 2 && Exec(id, steps).Some?
    requires forall i :: 0 <= i < |steps| ==> WholeId(steps[i])
    ensures EndsOk(Exec(id, steps).value, CallerEnded(steps), CalleeEnded(steps))
  {
    if steps != [] {
      var n := |steps| - 1;
      EndsExactly(id, steps[..n]);
      RunInv(id, steps[..n]);
      EndsStep(id, Exec(id, steps[..n]).value, steps[n], CallerEnded(steps[..n]), CalleeEnded(steps[..n]));
      EndedSnoc(steps);
    }
  }

  /**
   * A callee that has answered OK has handed the stream to the proxy's handler, which keeps it until it
   * returns; a caller that has read the OK pipes until one of its ends is closed.
   */
  lemma HandledUntilReturns(id: Bytes, steps: seq<Step>)
    requires |id| == 2 && Exec(id, steps).Some?
    requires forall i :: 0 <= i < |steps| ==> WholeId(steps[i])
    ensures var s := Exec(id, steps).value;
            && (s.down == [RS_OK] && !CalleeEnded(steps) ==> s.callee.Handling?)
            && (s.down == [RS_OK] && s.downRead == 1 && !CallerEnded(steps) ==> s.caller.Piping?)
            && (s.down == [RS_NOT_SUPPORTED] && s.downRead == 1 ==> s.caller.CallerDone?)
  {
    RunInv(id, steps);
    EndsExactly(id, steps);
  }

  /** A stranger gets no answer, and nothing that he sends is read. */
  lemma {:induction false} StrangerRefused(id: Bytes, steps: seq<Step>, j: nat)
    requires |id| == 2 && Exec(id, steps).Some? && j < |steps| && steps[j] == Accept(false)
    ensures var s := Exec(id, steps).value;
            s.callee.CalleeDone? && s.upRead == 0 && s.found.None? && s.down == []
    decreases |steps|
  {
    var n := |steps| - 1;
    if j < n {
      StrangerRefused(id, steps[..n], j);
    } else {
      Unheard(id, steps[..n]);
    }
  }

  lemma {:induction false} Unheard(id: Bytes, steps: seq<Step>)
    requires |id| == 2 && Exec(id, steps).Some? && Exec(id, steps).value.callee.Unopened?
    ensures var s := Exec(id, steps).value;
            s.upRead == 0 && s.found.None? && s.down == []
  {
    if steps != [] {
      Unheard(id, steps[..|steps| - 1]);
    }
  }

  // A connection that is handled

  lemma One(id: Bytes, past: seq<Step>, s: State, step: Step)
    requires |id| == 2 && Exec(id, past) == Some(s) && Enabled(id, s, step)
    ensures Exec(id, past + [step]) == Some(Do(id, s, step))
  {
    assert (past + [step])[..|past|] == past;
  }

  function Asking(name: Bytes, proxy: Proxy): seq<Step> {
    [RegisterAt(name, proxy)] + [Open(true)] + [SendId(2, true)] + [Accept(true)] + [ReadId(2, true)]
  }

  function Answered(chunk: Bytes): seq<Step> {
    [Look] + [Reply(1, true)] + [ReadStatus(true)] + [PipeUp(chunk)]
  }

  /** The state after the ID was sent, with one registration made. */
  function Waiting(id: Bytes, callee: Callee, upRead: nat, regs: seq<Registration>): State {
    State(Awaiting, callee, true, id, upRead, [], 0, regs, None, [])
  }

  lemma IdSent(name: Bytes, proxy: Proxy)
    ensures Exec(ServiceID(name), [RegisterAt(name, proxy)] + [Open(true)] + [SendId(2, true)]) ==
            Some(Waiting(ServiceID(name), Unopened, 0, [Registration(name, proxy)]))
  {
    var id, regs := ServiceID(name), [Registration(name, proxy)];
    One(id, [], INIT, RegisterAt(name, proxy));
    assert [] + [RegisterAt(name, proxy)] == [RegisterAt(name, proxy)] && [] + regs == regs;
    var past := [RegisterAt(name, proxy)];
    One(id, past, State(Opening, Unopened, false, [], 0, [], 0, regs, None, []), Open(true));
    past := past + [Open(true)];
    One(id, past, State(SendingId, Unopened, true, [], 0, [], 0, regs, None, []), SendId(2, true));
    assert [] + id[..2] == id;
  }

  lemma IdRead(id: Bytes, past: seq<Step>, regs: seq<Registration>)
    requires |id| == 2 && Exec(id, past) == Some(Waiting(id, Unopened, 0, regs))
    ensures Exec(id, past + [Accept(true)] + [ReadId(2, true)]) == Some(Waiting(id, Looking(id), 2, regs))
  {
    One(id, past, Waiting(id, Unopened, 0, regs), Accept(true));
    One(id, past + [Accept(true)], Waiting(id, ReadingId, 0, regs), ReadId(2, true));
    assert id[0..][..2] + [0, 0][2..] == id;
  }

  lemma Asked(name: Bytes, proxy: Proxy)
    ensures Exec(ServiceID(name), Asking(name, proxy)) ==
            Some(Waiting(ServiceID(name), Looking(ServiceID(name)), 2, [Registration(name, proxy)]))
  {
    IdSent(name, proxy);
    IdRead(ServiceID(name), [RegisterAt(name, proxy)] + [Open(true)] + [SendId(2, true)], [Registration(name, proxy)]);
  }

  /** A registered service, asked for by name, gets the connection and what the client sends on it. */
  lemma ServiceGetsPayload(name: Bytes, proxy: Proxy, chunk: Bytes) returns (s: State)
    ensures Exec(ServiceID(name), Asking(name, proxy) + Answered(chunk)) == Some(s)
    ensures s.callee.Handling? && s.caller.Piping? && s.found == Some(Found(Some(proxy), 1))
    ensures s.upRead == 2 <= |s.up| && s.up[2..] == s.payload == chunk
  {
    var id, regs := ServiceID(name), [Registration(name, proxy)];
    Asked(name, proxy);
    var past, found := Asking(name, proxy), Some(Found(Some(proxy), 1));
    One(id, past, Waiting(id, Looking(id), 2, regs), Look);
    past := past + [Look];
    One(id, past, State(Awaiting, Replying, true, id, 2, [], 0, regs, found, []), Reply(1, true));
    assert [] + [RS_OK][..1] == [RS_OK];
    past := past + [Reply(1, true)];
    One(id, past, State(Awaiting, Handling, true, id, 2, [RS_OK], 0, regs, found, []), ReadStatus(true));
    past := past + [ReadStatus(true)];
    One(id, past, State(Piping, Handling, true, id, 2, [RS_OK], 1, regs, found, []), PipeUp(chunk));
    assert past + [PipeUp(chunk)] == Asking(name, proxy) + Answered(chunk);
    assert [] + chunk == chunk && (id + chunk)[2..] == chunk;
    s := State(Piping, Handling, true, id + chunk, 2, [RS_OK], 1, regs, found, chunk);
  }

  /** A split read of the ID reaches another service: asked for 0102, the callee looks up 0100. */
  lemma SplitIdMisroutes()
    ensures var steps := [Open(true), SendId(2, true), Accept(true), ReadId(1, true)];
            Exec([1, 2], steps).Some? && Exec([1, 2], steps).value.callee == Looking([1, 0])
  {
    var id: Bytes := [1, 2];
    var steps := [Open(true), SendId(2, true), Accept(true), ReadId(1, true)];
    var s1 := After(id, steps, 0, INIT);
    var s2 := After(id, steps, 1, s1);
    var s3 := After(id, steps, 2, s2);
    assert s3.up == [1, 2];
    var s4 := After(id, steps, 3, s3);
    assert s3.up[0..][..1] + [0, 0][1..] == [1, 0];
    assert steps[..4] == steps;
  }

  lemma After(id: Bytes, steps: seq<Step>, n: nat, s: State) returns (s': State)
    requires |id| == 2 && n < |steps| && Exec(id, steps[..n]) == Some(s) && Enabled(id, s, steps[n])
    ensures s' == Do(id, s, steps[n]) && Exec(id, steps[..n + 1]) == Some(s')
  {
    s' := Do(id, s, steps[n]);
    assert steps[..n + 1][..n] == steps[..n];
  }
}
