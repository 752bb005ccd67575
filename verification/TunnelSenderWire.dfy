/** What the streams carry: whole frames, at most one unfinished frame, and one or two frames a call. */
module TunnelSenderWire {
  import opened Common
  import opened Frames
  import opened TunnelSender
  import opened TunnelSenderInv

  // A stream's contents against the history

  ghost predicate WireAt(st: Stream, log: seq<Entry>, x: nat) {
    && st.bytes == Flat(On(log, x)) + MidBytes(st.mid)
    && (st.mid.Some? ==> 0 < st.mid.value.sent < |Frame(st.mid.value.packet)|)
  }

  ghost predicate WireOk(s: State) {
    && (forall x :: 0 <= x < |s.streams| ==> WireAt(s.streams[x], s.log, x))
    && (forall i :: 0 <= i < |s.log| ==>
          && s.log[i].stream < |s.streams| && s.log[i].task < |s.tasks|
          && s.log[i].packet == s.tasks[s.log[i].task].packet)
  }

  // A stream's unfinished frame against the goroutine that is sending it

  ghost predicate Unfinished(st: Stream, t: nat, p: Packet, k: nat) {
    st.mid == if 0 < k < |Frame(p)| then Some(Mid(t, p, k)) else None
  }

  /** What goroutine `t`, about to act on stream `st`, may rely on. */
  ghost predicate TaskOn(task: Task, t: nat, st: Stream) {
    match task.pc
    case Header(_, k) => k <= 2 && if st.closed then k == 0 else Unfinished(st, t, task.packet, k)
    case Payload(_, k) => 2 <= k <= |Frame(task.packet)| && !st.closed && Unfinished(st, t, task.packet, k)
    case ArmCached(_) => !st.closed && st.mid.None?
    case ArmFresh(_) => !st.closed && st.mid.None?
    case Publish(_) => !st.closed && st.mid.None?
    case Unlock(_, ok) => ok ==> !st.closed && st.mid.None?
    case _ => true
  }

  ghost predicate Settled(s: State, t: nat) {
    t < |s.tasks| &&
    (Target(s, t).Some? ==> Target(s, t).value < |s.streams| && TaskOn(s.tasks[t], t, s.streams[Target(s, t).value]))
  }

  ghost predicate TasksOn(s: State) {
    forall t :: 0 <= t < |s.tasks| ==> Settled(s, t)
  }

  /** An open stream with an unfinished frame is being written by the goroutine of that frame. */
  ghost predicate MidOn(s: State, x: nat)
    requires x < |s.streams|
  {
    !s.streams[x].closed && s.streams[x].mid.Some? ==>
      var mid := s.streams[x].mid.value;
      && mid.task < |s.tasks| && Target(s, mid.task) == Some(x)
      && s.tasks[mid.task].packet == mid.packet
      && (Writing(s.tasks[mid.task].pc) || s.tasks[mid.task].pc.Closing?)
  }

  ghost predicate MidsOn(s: State) {
    forall x :: 0 <= x < |s.streams| ==> MidOn(s, x)
  }

  lemma {:induction false} OnSnoc(log: seq<Entry>, e: Entry, x: nat)
    ensures On(log + [e], x) == if e.stream == x then On(log, x) + [e.packet] else On(log, x)
  {
    assert (log + [e])[..|log|] == log;
  }

  lemma {:induction false} CountSnoc(log: seq<Entry>, e: Entry, t: nat)
    ensures Count(log + [e], t) == Count(log, t) + (if e.task == t then 1 else 0)
  {
    assert (log + [e])[..|log|] == log;
  }

  lemma {:induction false} OnNone(log: seq<Entry>, x: nat)
    requires forall i :: 0 <= i < |log| ==> log[i].stream != x
    ensures On(log, x) == []
  {
    if log != [] {
      OnNone(log[..|log| - 1], x);
    }
  }

  lemma {:induction false} CountNone(log: seq<Entry>, t: nat)
    requires forall i :: 0 <= i < |log| ==> log[i].task != t
    ensures Count(log, t) == 0
  {
    if log != [] {
      CountNone(log[..|log| - 1], t);
    }
  }

  /** Two goroutines never act on one stream. */
  lemma Apart(s: State, t: nat, u: nat)
    requires LocksOk(s) && MuxesOk(s) && OwnedOk(s)
    requires t < |s.tasks| && u < |s.tasks| && t != u && Target(s, t).Some?
    ensures Target(s, t) != Target(s, u)
  {
    var h, g := Held(s.tasks[t].pc), Held(s.tasks[u].pc);
    if h.Some? && g.Some? {
      HeldApart(s, t, u);
    } else if h.Some? {
      OwnUnpublished(s, u, t);
    } else if g.Some? {
      OwnUnpublished(s, t, u);
    } else {
      OwnApart(s, t, u);
    }
  }

  lemma HeldApart(s: State, t: nat, u: nat)
    requires LocksOk(s) && MuxesOk(s)
    requires t < |s.tasks| && u < |s.tasks| && t != u && Held(s.tasks[t].pc).Some? && Held(s.tasks[u].pc).Some?
    ensures MuxStream(s, Held(s.tasks[t].pc).value) != MuxStream(s, Held(s.tasks[u].pc).value)
  {
    var m, n := Held(s.tasks[t].pc).value, Held(s.tasks[u].pc).value;
    assert s.muxes[m].holder == Some(t) && s.muxes[n].holder == Some(u);
  }

  lemma OwnUnpublished(s: State, t: nat, u: nat)
    requires LocksOk(s) && OwnedOk(s)
    requires t < |s.tasks| && u < |s.tasks| && Held(s.tasks[u].pc).Some?
    ensures Own(s.tasks[t].pc) != Some(MuxStream(s, Held(s.tasks[u].pc).value))
  {
    assert Held(s.tasks[u].pc).value < |s.muxes|;
  }

  lemma OwnApart(s: State, t: nat, u: nat)
    requires OwnedOk(s)
    requires t < |s.tasks| && u < |s.tasks| && t != u && Own(s.tasks[t].pc).Some?
    ensures Own(s.tasks[t].pc) != Own(s.tasks[u].pc)
  {
    if u < t && Own(s.tasks[u].pc).Some? {
      assert Own(s.tasks[u].pc) != Own(s.tasks[t].pc);
    }
  }

  /** Taking some bytes keeps a stream in step with the history. */
  lemma TakingWire(st: Stream, log: seq<Entry>, x: nat, t: nat, p: Packet, sent: nat, upto: nat)
    requires WireAt(st, log, x) && sent < upto <= |Frame(p)| && Unfinished(st, t, p, sent)
    ensures WireAt(Taking(st, t, p, sent, upto), if upto == |Frame(p)| then log + [Entry(x, t, p)] else log, x)
  {
    var f := Frame(p);
    assert MidBytes(st.mid) == f[..sent];
    SliceOn(Flat(On(log, x)), f, sent, upto);
    if upto == |f| {
      OnSnoc(log, Entry(x, t, p), x);
      FlatSnoc(On(log, x), p);
    }
  }

  lemma SliceOn(whole: seq<Byte>, f: seq<Byte>, i: nat, j: nat)
    requires i <= j <= |f|
    ensures whole + f[..i] + f[i..j] == whole + f[..j]
    ensures j == |f| ==> whole + f[..i] + f[i..j] == whole + f + []
  {
    assert f[..i] + f[i..j] == f[..j];
  }

  lemma WireStep(s: State, step: Step)
    requires TasksOn(s) && WireOk(s) && Enabled(s, step)
    ensures WireOk(Do(s, step))
  {
    if step.Accept? {
      WireAccept(s, step);
    } else {
      OthersKept(s, step);
      BytesKept(s, step);
      OnNone(s.log, |s.streams|);
      WireFrame(s, Do(s, step));
    }
  }

  lemma WireFrame(s: State, s': State)
    requires WireOk(s) && s'.log == s.log && On(s.log, |s.streams|) == []
    requires |s.tasks| <= |s'.tasks| && |s.streams| <= |s'.streams| <= |s.streams| + 1
    requires forall u :: 0 <= u < |s.tasks| ==> s'.tasks[u].packet == s.tasks[u].packet
    requires forall x :: 0 <= x < |s.streams| ==>
               s'.streams[x].bytes == s.streams[x].bytes && s'.streams[x].mid == s.streams[x].mid
    requires |s.streams| < |s'.streams| ==> s'.streams[|s.streams|] == Stream([], false, None)
    ensures WireOk(s')
  {
    forall x | 0 <= x < |s'.streams|
      ensures WireAt(s'.streams[x], s'.log, x)
    {
      if x < |s.streams| {
        assert WireAt(s.streams[x], s.log, x);
      }
    }
  }

  lemma BytesKept(s: State, step: Step)
    requires Enabled(s, step) && !step.Accept?
    ensures Do(s, step).log == s.log
    ensures |s.streams| <= |Do(s, step).streams| <= |s.streams| + 1
    ensures forall x :: 0 <= x < |s.streams| ==>
              Do(s, step).streams[x].bytes == s.streams[x].bytes && Do(s, step).streams[x].mid == s.streams[x].mid
    ensures |s.streams| < |Do(s, step).streams| ==> Do(s, step).streams[|s.streams|] == Stream([], false, None)
  {
  }

  lemma WireAccept(s: State, step: Step)
    requires TasksOn(s) && WireOk(s) && Enabled(s, step) && step.Accept?
    ensures WireOk(Do(s, step))
  {
    LogAccept(s, step);
    forall y | 0 <= y < |s.streams|
      ensures WireAt(Do(s, step).streams[y], Do(s, step).log, y)
    {
      WireAcceptAt(s, step, y);
    }
  }

  lemma WireAcceptAt(s: State, step: Step, y: nat)
    requires TasksOn(s) && Enabled(s, step) && step.Accept?
    requires y < |s.streams| && WireAt(s.streams[y], s.log, y)
    ensures |Do(s, step).streams| == |s.streams| && WireAt(Do(s, step).streams[y], Do(s, step).log, y)
  {
    var task := s.tasks[step.t];
    var x := StreamOf(s, task.pc.via);
    if x == y {
      assert Settled(s, step.t);
      WireAcceptHere(s, step);
    } else {
      OnSnoc(s.log, Entry(x, step.t, task.packet), y);
    }
  }

  lemma WireAcceptHere(s: State, step: Step)
    requires step.Accept? && Settled(s, step.t) && Enabled(s, step)
    requires var x := StreamOf(s, s.tasks[step.t].pc.via); WireAt(s.streams[x], s.log, x)
    ensures var x := StreamOf(s, s.tasks[step.t].pc.via);
            |Do(s, step).streams| == |s.streams| && WireAt(Do(s, step).streams[x], Do(s, step).log, x)
  {
    var s' := Do(s, step);
    var task := s.tasks[step.t];
    var x := StreamOf(s, task.pc.via);
    AcceptFits(s, step);
    AcceptTakes(s, step);
    TookWire(s.streams[x], s.log, s'.streams[x], s'.log, x, step.t, task.packet, task.pc.sent, task.pc.sent + step.k);
  }

  /** The stream and the history after a stream has taken bytes `sent..upto` of a frame. */
  ghost predicate Took(st: Stream, log: seq<Entry>, st': Stream, log': seq<Entry>,
                       x: nat, t: nat, p: Packet, sent: nat, upto: nat) {
    && sent < upto <= |Frame(p)| && st' == Taking(st, t, p, sent, upto)
    && log' == if upto == |Frame(p)| then log + [Entry(x, t, p)] else log
  }

  lemma TookWire(st: Stream, log: seq<Entry>, st': Stream, log': seq<Entry>,
                 x: nat, t: nat, p: Packet, sent: nat, upto: nat)
    requires WireAt(st, log, x) && Unfinished(st, t, p, sent) && Took(st, log, st', log', x, t, p, sent, upto)
    ensures WireAt(st', log', x)
  {
    TakingWire(st, log, x, t, p, sent, upto);
  }

  lemma AcceptTakes(s: State, step: Step)
    requires Enabled(s, step) && step.Accept?
    ensures var task := s.tasks[step.t];
            var x := StreamOf(s, task.pc.via);
            && x < |s.streams| == |Do(s, step).streams|
            && Took(s.streams[x], s.log, Do(s, step).streams[x], Do(s, step).log,
                    x, step.t, task.packet, task.pc.sent, task.pc.sent + step.k)
  {
  }

  /** A write under way continues the frame that its stream has taken part of. */
  lemma AcceptFits(s: State, step: Step)
    requires step.Accept? && Settled(s, step.t) && Enabled(s, step)
    ensures var task := s.tasks[step.t];
            var x := StreamOf(s, task.pc.via);
            && Unfinished(s.streams[x], step.t, task.packet, task.pc.sent)
            && task.pc.sent < task.pc.sent + step.k <= |Frame(task.packet)|
  {
    assert Target(s, step.t) == Some(StreamOf(s, s.tasks[step.t].pc.via));
  }

  lemma LogAccept(s: State, step: Step)
    requires WireOk(s) && Enabled(s, step) && step.Accept?
    ensures forall i :: 0 <= i < |Do(s, step).log| ==>
              var e := Do(s, step).log[i];
              && e.stream < |Do(s, step).streams| && e.task < |Do(s, step).tasks|
              && e.packet == Do(s, step).tasks[e.task].packet
  {
    OthersKept(s, step);
  }

  // Who is on which stream

  lemma StreamsElsewhere(s: State, step: Step, y: nat)
    requires Enabled(s, step) && y < |s.streams|
    requires !step.Spawn? ==> Target(s, step.t) != Some(y)
    ensures y < |Do(s, step).streams| && Do(s, step).streams[y] == s.streams[y]
  {
  }

  lemma TargetKept(s: State, step: Step, u: nat)
    requires LocksOk(s) && Enabled(s, step) && u < |s.tasks| && (step.Spawn? || u != step.t)
    ensures u < |Do(s, step).tasks| && Do(s, step).tasks[u] == s.tasks[u] && Target(Do(s, step), u) == Target(s, u)
  {
    OthersKept(s, step);
    MuxesKept(s, step);
  }

  lemma TasksStep(s: State, step: Step)
    requires Shape(s) && TasksOn(s) && MidsOn(s) && Enabled(s, step)
    ensures TasksOn(Do(s, step))
  {
    forall u | 0 <= u < |Do(s, step).tasks|
      ensures Settled(Do(s, step), u)
    {
      TaskStep(s, step, u);
    }
  }

  lemma TaskStep(s: State, step: Step, u: nat)
    requires Shape(s) && TasksOn(s) && MidsOn(s) && Enabled(s, step) && u < |Do(s, step).tasks|
    ensures Settled(Do(s, step), u)
  {
    TaskCount(s, step);
    if u == |s.tasks| {
      NewTask(s, step);
    } else if step.Spawn? || u != step.t {
      OtherTask(s, step, u);
    } else {
      ThisTask(s, step);
    }
  }

  lemma TaskCount(s: State, step: Step)
    requires Enabled(s, step)
    ensures |Do(s, step).tasks| == if step.Spawn? then |s.tasks| + 1 else |s.tasks|
  {
  }

  lemma NewTask(s: State, step: Step)
    requires Enabled(s, step) && step.Spawn?
    ensures Settled(Do(s, step), |s.tasks|)
  {
  }

  lemma OtherTask(s: State, step: Step, u: nat)
    requires Shape(s) && TasksOn(s) && Enabled(s, step)
    requires u < |s.tasks| && (step.Spawn? || u != step.t)
    ensures Settled(Do(s, step), u)
  {
    TargetKept(s, step, u);
    assert Settled(s, u);
    if Target(s, u).Some? {
      if !step.Spawn? {
        Apart(s, u, step.t);
      }
      StreamsElsewhere(s, step, Target(s, u).value);
    }
  }

  lemma ThisTask(s: State, step: Step)
    requires Shape(s) && TasksOn(s) && MidsOn(s) && Enabled(s, step) && !step.Spawn?
    ensures Settled(Do(s, step), step.t)
  {
    if step.Acquire? {
      AcquireSettles(s, step);
    } else {
      assert Settled(s, step.t);
      if WriteStep(step) {
        WriteSettles(s, step);
      } else if step.Arm? || step.Dial? {
        ArmSettles(s, step);
      } else {
        OtherSettles(s, step);
      }
    }
  }

  lemma WriteSettles(s: State, step: Step)
    requires WriteStep(step) && Settled(s, step.t) && Enabled(s, step)
    ensures Settled(Do(s, step), step.t)
  {
    assert Target(s, step.t) == Some(StreamOf(s, s.tasks[step.t].pc.via));
  }

  lemma ArmSettles(s: State, step: Step)
    requires (step.Arm? || step.Dial?) && Settled(s, step.t) && Enabled(s, step)
    ensures Settled(Do(s, step), step.t)
  {
  }

  lemma OtherSettles(s: State, step: Step)
    requires !step.Spawn? && Settled(s, step.t) && Enabled(s, step)
    requires !WriteStep(step) && !step.Acquire? && !step.Arm? && !step.Dial?
    ensures Settled(Do(s, step), step.t)
  {
  }

  /** A goroutine that gets the lock of an open stream finds no unfinished frame on it. */
  lemma AcquireSettles(s: State, step: Step)
    requires Shape(s) && MidsOn(s) && Enabled(s, step) && step.Acquire?
    ensures Settled(Do(s, step), step.t)
  {
    var m := s.tasks[step.t].pc.mux;
    var x := s.muxes[m].stream;
    assert MidOn(s, x);
    if !s.streams[x].closed && s.streams[x].mid.Some? {
      var w := s.streams[x].mid.value.task;
      FreeLockFreeStream(s, m, w);
    }
  }

  lemma FreeLockFreeStream(s: State, m: nat, w: nat)
    requires Shape(s) && m < |s.muxes| && s.muxes[m].holder.None? && w < |s.tasks|
    ensures Target(s, w) != Some(s.muxes[m].stream)
  {
  }

  lemma MidsStep(s: State, step: Step)
    requires Shape(s) && TasksOn(s) && MidsOn(s) && Enabled(s, step)
    ensures MidsOn(Do(s, step))
  {
    forall x | 0 <= x < |Do(s, step).streams|
      ensures MidOn(Do(s, step), x)
    {
      if x < |s.streams| {
        assert MidOn(s, x);
        if !step.Spawn? && Target(s, step.t) == Some(x) {
          MidHere(s, step);
        } else {
          MidElsewhere(s, step, x);
        }
      } else {
        BytesKeptOrAccept(s, step);
      }
    }
  }

  lemma BytesKeptOrAccept(s: State, step: Step)
    requires Enabled(s, step)
    ensures |s.streams| <= |Do(s, step).streams| <= |s.streams| + 1
    ensures |s.streams| < |Do(s, step).streams| ==> Do(s, step).streams[|s.streams|] == Stream([], false, None)
  {
  }

  lemma MidElsewhere(s: State, step: Step, x: nat)
    requires Shape(s) && Enabled(s, step) && x < |s.streams| && MidOn(s, x)
    requires !step.Spawn? ==> Target(s, step.t) != Some(x)
    ensures x < |Do(s, step).streams| && MidOn(Do(s, step), x)
  {
    StreamsElsewhere(s, step, x);
    if !s.streams[x].closed && s.streams[x].mid.Some? {
      TargetKept(s, step, s.streams[x].mid.value.task);
    }
  }

  lemma MidHere(s: State, step: Step)
    requires Shape(s) && TasksOn(s) && Enabled(s, step) && !step.Spawn? && Target(s, step.t).Some?
    requires Target(s, step.t).value < |s.streams| && MidOn(s, Target(s, step.t).value)
    ensures Target(s, step.t).value < |Do(s, step).streams| && MidOn(Do(s, step), Target(s, step.t).value)
  {
    var x := Target(s, step.t).value;
    assert Settled(s, step.t);
    if !s.streams[x].closed && s.streams[x].mid.Some? && s.streams[x].mid.value.task != step.t {
      Apart(s, step.t, s.streams[x].mid.value.task);
    }
    if WriteStep(step) {
      MidHereWrite(s, step);
    } else {
      MidHereOther(s, step);
    }
  }

  lemma MidHereWrite(s: State, step: Step)
    requires WriteStep(step) && Settled(s, step.t) && Enabled(s, step)
    requires var x := StreamOf(s, s.tasks[step.t].pc.via);
             x < |s.streams| && MidOn(s, x)
             && (!s.streams[x].closed && s.streams[x].mid.Some? ==> s.streams[x].mid.value.task == step.t)
    ensures MidOn(Do(s, step), StreamOf(s, s.tasks[step.t].pc.via))
  {
  }

  lemma MidHereOther(s: State, step: Step)
    requires !step.Spawn? && Settled(s, step.t) && Enabled(s, step) && !WriteStep(step) && Target(s, step.t).Some?
    requires var x := Target(s, step.t).value;
             x < |s.streams| && MidOn(s, x)
             && (!s.streams[x].closed && s.streams[x].mid.Some? ==> s.streams[x].mid.value.task == step.t)
    ensures Target(s, step.t).value < |Do(s, step).streams| && MidOn(Do(s, step), Target(s, step.t).value)
  {
  }
}
