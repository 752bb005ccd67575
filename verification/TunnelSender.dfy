/**
 * The sending half of the packet tunnel as a transition system: any number of `sendPacket`
 * goroutines share the cache of open streams, every step of every one of them may be followed by a
 * step of any other, and every write, deadline call and dial may fail. One write is many steps, so
 * that two writes to one stream would mix their bytes if nothing kept them apart.
 *
 * `mid`, `log`, `first` and `second` are history: no step reads them to decide what to do.
 */
module TunnelSender {
  import opened Common
  import opened Frames

  /** How a try at sending on one stream ended. */
  datatype Attempt =
    | Untried
    | Short        // failed before the stream had accepted the whole frame
    | Late         // a write reported failure although it had accepted all its bytes
    | DeadlineErr  // the frame was written, then SetWriteDeadline failed
    | Sent

  /** The stream a goroutine writes to: one found in the cache, or one it dialled itself. */
  datatype Via = Cached(mux: nat) | Fresh(stream: nat)

  datatype Pc =
    | Lookup
    | Wait(mux: nat)                    // at Lock()
    | Header(via: Via, sent: nat)       // in the write of the length
    | Payload(via: Via, sent: nat)      // in the write of the packet
    | ArmCached(mux: nat)               // at SetWriteDeadline, after writing
    | Closing(via: Via)
    | Evict(mux: nat)                   // closed, not yet deleted from the cache
    | Unlock(mux: nat, ok: bool)
    | Open                              // at NewStream
    | ArmFresh(stream: nat)             // at SetWriteDeadline, before writing
    | Publish(stream: nat)
    | Done(ok: bool)

  datatype Task = Task(dst: nat, packet: Packet, pc: Pc, first: Attempt, second: Attempt)

  /** A frame of which the stream has accepted some bytes but not all. */
  datatype Mid = Mid(task: nat, packet: Packet, sent: nat)

  datatype Stream = Stream(bytes: seq<Byte>, closed: bool, mid: Option<Mid>)

  /** A published `MuxStream`; its index stands for the identity of its lock. */
  datatype Mux = Mux(dst: nat, stream: nat, holder: Option<nat>)

  /** Some stream has accepted the last byte of a task's frame. */
  datatype Entry = Entry(stream: nat, task: nat, packet: Packet)

  datatype State = State(
    tasks: seq<Task>, streams: seq<Stream>, muxes: seq<Mux>, active: map<nat, nat>, log: seq<Entry>)

  const INIT := State([], [], [], map[], [])

  datatype Step =
    | Spawn(dst: nat, packet: Packet)
    | Look(t: nat)
    | Acquire(t: nat)
    | Accept(t: nat, k: nat)       // the stream takes k more bytes of the write in progress
    | WriteOk(t: nat)
    | WriteErr(t: nat)
    | Arm(t: nat, ok: bool)
    | Close(t: nat)
    | Remove(t: nat)
    | Release(t: nat)
    | Dial(t: nat, ok: bool)
    | Put(t: nat)

  function MuxStream(s: State, m: nat): nat {
    if m < |s.muxes| then s.muxes[m].stream else |s.streams|
  }

  function StreamOf(s: State, via: Via): nat {
    match via
    case Cached(m) => MuxStream(s, m)
    case Fresh(x) => x
  }

  predicate Writing(pc: Pc) {
    pc.Header? || pc.Payload?
  }

  /** The bytes the write in progress has left to offer. */
  function Limit(task: Task): nat
    requires Writing(task.pc)
  {
    if task.pc.Header? then 2 else |Frame(task.packet)|
  }

  predicate Enabled(s: State, step: Step) {
    if step.Spawn? then true
    else
      step.t < |s.tasks| &&
      var task := s.tasks[step.t];
      var pc := task.pc;
      match step
      case Spawn(_, _) => true
      case Look(_) => pc.Lookup?
      case Acquire(_) => pc.Wait? && pc.mux < |s.muxes| && s.muxes[pc.mux].holder.None?
      case Accept(_, k) =>
        && Writing(pc) && k > 0 && pc.sent + k <= Limit(task)
        && StreamOf(s, pc.via) < |s.streams| && !s.streams[StreamOf(s, pc.via)].closed
      case WriteOk(_) => Writing(pc) && pc.sent == Limit(task)
      case WriteErr(_) => Writing(pc)
      case Arm(_, _) => pc.ArmCached? || pc.ArmFresh?
      case Close(_) => pc.Closing? && StreamOf(s, pc.via) < |s.streams|
      case Remove(_) => pc.Evict?
      case Release(_) => pc.Unlock? && pc.mux < |s.muxes|
      case Dial(_, _) => pc.Open?
      case Put(_) => pc.Publish?
  }

  function Goto(s: State, t: nat, pc: Pc): State
    requires t < |s.tasks|
  {
    s.(tasks := s.tasks[t := s.tasks[t].(pc := pc)])
  }

  function EndFirst(s: State, t: nat, how: Attempt): State
    requires t < |s.tasks|
  {
    s.(tasks := s.tasks[t := s.tasks[t].(first := how)])
  }

  function EndSecond(s: State, t: nat, how: Attempt): State
    requires t < |s.tasks|
  {
    s.(tasks := s.tasks[t := s.tasks[t].(second := how)])
  }

  function Hold(s: State, m: nat, holder: Option<nat>): State
    requires m < |s.muxes|
  {
    s.(muxes := s.muxes[m := s.muxes[m].(holder := holder)])
  }

  /** `st` after taking bytes `sent..upto` of the frame of task `t`. */
  function Taking(st: Stream, t: nat, p: Packet, sent: nat, upto: nat): Stream
    requires sent <= upto <= |Frame(p)|
  {
    Stream(st.bytes + Frame(p)[sent..upto], st.closed,
           if upto == |Frame(p)| then None else Some(Mid(t, p, upto)))
  }

  function Do(s: State, step: Step): State
    requires Enabled(s, step)
  {
    match step
    case Spawn(dst, packet) => s.(tasks := s.tasks + [Task(dst, packet, Lookup, Untried, Untried)])
    case Look(t) =>
      var dst := s.tasks[t].dst;
      Goto(s, t, if dst in s.active then Wait(s.active[dst]) else Open)
    case Acquire(t) =>
      var m := s.tasks[t].pc.mux;
      Goto(Hold(s, m, Some(t)), t, Header(Cached(m), 0))
    case Accept(t, k) =>
      var task := s.tasks[t];
      var x := StreamOf(s, task.pc.via);
      var upto := task.pc.sent + k;
      var s' := s.(
        streams := s.streams[x := Taking(s.streams[x], t, task.packet, task.pc.sent, upto)],
        log := if upto == |Frame(task.packet)| then s.log + [Entry(x, t, task.packet)] else s.log);
      Goto(s', t, if task.pc.Header? then Header(task.pc.via, upto) else Payload(task.pc.via, upto))
    case WriteOk(t) =>
      var pc := s.tasks[t].pc;
      Goto(s, t,
           if pc.Header? then Payload(pc.via, pc.sent)
           else match pc.via
             case Cached(m) => ArmCached(m)
             case Fresh(x) => Publish(x))
    case WriteErr(t) =>
      var pc := s.tasks[t].pc;
      var how := if pc.sent == |Frame(s.tasks[t].packet)| then Late else Short;
      var s' := if pc.via.Cached? then EndFirst(s, t, how) else EndSecond(s, t, how);
      Goto(s', t, Closing(pc.via))
    case Arm(t, ok) =>
      (match s.tasks[t].pc
       case ArmFresh(x) =>
         if ok then Goto(s, t, Header(Fresh(x), 0))
         else Goto(EndSecond(s, t, Short), t, Closing(Fresh(x)))
       case pc =>
         if ok then Goto(EndFirst(s, t, Sent), t, Unlock(pc.mux, true))
         else Goto(EndFirst(s, t, DeadlineErr), t, Closing(Cached(pc.mux))))
    case Close(t) =>
      var via := s.tasks[t].pc.via;
      var x := StreamOf(s, via);
      var s' := s.(streams := s.streams[x := s.streams[x].(closed := true)]);
      Goto(s', t, if via.Cached? then Evict(via.mux) else Done(false))
    case Remove(t) =>
      Goto(s.(active := s.active - {s.tasks[t].dst}), t, Unlock(s.tasks[t].pc.mux, false))
    case Release(t) =>
      var pc := s.tasks[t].pc;
      Goto(Hold(s, pc.mux, None), t, if pc.ok then Done(true) else Open)
    case Dial(t, ok) =>
      if ok then Goto(s.(streams := s.streams + [Stream([], false, None)]), t, ArmFresh(|s.streams|))
      else Goto(s, t, Done(false))
    case Put(t) =>
      var task := s.tasks[t];
      var s' := s.(muxes := s.muxes + [Mux(task.dst, task.pc.stream, None)],
                   active := s.active[task.dst := |s.muxes|]);
      Goto(EndSecond(s', t, Sent), t, Done(true))
  }

  /** The state after a schedule, when every step of it was possible. */
  function Exec(steps: seq<Step>): Option<State> {
    if steps == [] then Some(INIT)
    else
      match Exec(steps[..|steps| - 1])
      case None => None
      case Some(s) => if Enabled(s, steps[|steps| - 1]) then Some(Do(s, steps[|steps| - 1])) else None
  }

  /** The packets whose frames a stream has accepted whole, in order. */
  function On(log: seq<Entry>, x: nat): seq<Packet> {
    if log == [] then []
    else
      var e := log[|log| - 1];
      if e.stream == x then On(log[..|log| - 1], x) + [e.packet] else On(log[..|log| - 1], x)
  }

  /** How many whole frames of a task have been accepted, on whichever streams. */
  function Count(log: seq<Entry>, t: nat): nat {
    if log == [] then 0
    else Count(log[..|log| - 1], t) + (if log[|log| - 1].task == t then 1 else 0)
  }

  function MidBytes(mid: Option<Mid>): seq<Byte> {
    match mid
    case None => []
    case Some(m) => if m.sent <= |Frame(m.packet)| then Frame(m.packet)[..m.sent] else []
  }
}
