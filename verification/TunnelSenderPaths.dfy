/** Which way each packet goes: what is sent, on whose stream, and whether the cached one is tried first. */
module TunnelSenderPaths {
  import opened Common
  import opened Frames
  import opened TunnelSender
  import opened TunnelSenderInv
  import opened TunnelSenderWire
  import opened TunnelSenderRuns
  import opened TunnelSenderLeaks

  // What is sent

  /** The destinations and packets of the calls, in order. */
  function Calls(steps: seq<Step>): seq<(nat, Packet)> {
    if steps == [] then []
    else
      var last := steps[|steps| - 1];
      Calls(steps[..|steps| - 1]) + if last.Spawn? then [(last.dst, last.packet)] else []
  }

  /** Every goroutine has the destination and the packet that it was called with. */
  lemma {:induction false} CallsKept(steps: seq<Step>, t: nat)
    requires Exec(steps).Some?
    ensures |Exec(steps).value.tasks| == |Calls(steps)|
    ensures t < |Calls(steps)| ==>
              (Exec(steps).value.tasks[t].dst, Exec(steps).value.tasks[t].packet) == Calls(steps)[t]
  {
    if steps != [] {
      var n := |steps| - 1;
      var s := Exec(steps[..n]).value;
      CallsKept(steps[..n], t);
      TaskCount(s, steps[n]);
      OthersKept(s, steps[n]);
      if steps[n].Spawn? {
        assert Exec(steps).value.tasks[|s.tasks|] ==
               Task(steps[n].dst, steps[n].packet, Lookup, Untried, Untried);
      }
    }
  }

  // Whether the cached stream is tried

  /** The cached stream that a goroutine waits for or holds. */
  function OnCached(pc: Pc): Option<nat> {
    if pc.Wait? then Some(pc.mux) else Held(pc)
  }

  /** The goroutine has tried the cached stream, or is at it. */
  predicate TakesCached(task: Task) {
    OnCached(task.pc).Some? || !task.first.Untried?
  }

  /** Step `i` is where goroutine `t` looks into the cache, and `found` is what it finds there. */
  ghost predicate LooksAt(steps: seq<Step>, i: nat, t: nat, found: Option<nat>) {
    && i < |steps| && steps[i] == Look(t) && Exec(steps[..i]).Some?
    && var s := Exec(steps[..i]).value;
       && t < |s.tasks|
       && found == if s.tasks[t].dst in s.active then Some(s.active[s.tasks[t].dst]) else None
  }

  lemma LookStep(s: State, t: nat)
    requires Enabled(s, Look(t))
    ensures var dst := s.tasks[t].dst;
            && Do(s, Look(t)).tasks[t].pc == (if dst in s.active then Wait(s.active[dst]) else Open)
            && Do(s, Look(t)).tasks[t].first == s.tasks[t].first
  {
  }

  lemma PathStep(s: State, step: Step)
    requires Enabled(s, step) && !step.Spawn? && !step.Look? && AttemptsOk(s.tasks[step.t])
    ensures var task, task' := s.tasks[step.t], Do(s, step).tasks[step.t];
            && !task.pc.Lookup? && !task'.pc.Lookup?
            && (TakesCached(task') <==> TakesCached(task))
            && (OnCached(task'.pc).Some? ==> OnCached(task'.pc) == OnCached(task.pc))
  {
    if WriteStep(step) {
      PathWrite(s, step);
    } else if step.Arm? {
      PathArm(s, step);
    }
  }

  lemma PathWrite(s: State, step: Step)
    requires Enabled(s, step) && WriteStep(step) && AttemptsOk(s.tasks[step.t])
    ensures var task, task' := s.tasks[step.t], Do(s, step).tasks[step.t];
            && !task.pc.Lookup? && !task'.pc.Lookup?
            && (TakesCached(task') <==> TakesCached(task))
            && (OnCached(task'.pc).Some? ==> OnCached(task'.pc) == OnCached(task.pc))
  {
  }

  lemma PathArm(s: State, step: Step)
    requires Enabled(s, step) && step.Arm? && AttemptsOk(s.tasks[step.t])
    ensures var task, task' := s.tasks[step.t], Do(s, step).tasks[step.t];
            && !task.pc.Lookup? && !task'.pc.Lookup?
            && (TakesCached(task') <==> TakesCached(task))
            && (OnCached(task'.pc).Some? ==> OnCached(task'.pc) == OnCached(task.pc))
  {
  }

  /** What a goroutine has done agrees with what it found in the cache. */
  ghost predicate Follows(task: Task, found: Option<nat>) {
    && (found.Some? <==> TakesCached(task))
    && (OnCached(task.pc).Some? ==> OnCached(task.pc) == found)
  }

  /**
   * Every goroutine past its lookup has looked into the cache once, and goes by what it found: if there
   * was a stream for its destination, that is the one it waits for, holds or has tried; only if there
   * was none does it dial without having tried one.
   */
  lemma {:induction false} FollowsLook(steps: seq<Step>, t: nat) returns (i: nat, found: Option<nat>)
    requires Exec(steps).Some? && t < |Exec(steps).value.tasks| && !Exec(steps).value.tasks[t].pc.Lookup?
    ensures LooksAt(steps, i, t, found) && Follows(Exec(steps).value.tasks[t], found)
  {
    var n := |steps| - 1;
    var s := Exec(steps[..n]).value;
    RunTally(steps[..n]);
    if steps[n] == Look(t) {
      i := n;
      found := if s.tasks[t].dst in s.active then Some(s.active[s.tasks[t].dst]) else None;
      LookFollows(s, t);
    } else {
      Moved(s, steps[n], t);
      i, found := FollowsLook(steps[..n], t);
      assert steps[..n][..i] == steps[..i];
    }
  }

  lemma RunTally(steps: seq<Step>)
    requires Exec(steps).Some?
    ensures TallyOk(Exec(steps).value)
  {
    RunInv(steps);
  }

  lemma LookFollows(s: State, t: nat)
    requires TallyOk(s) && Enabled(s, Look(t))
    ensures var dst := s.tasks[t].dst;
            Follows(Do(s, Look(t)).tasks[t], if dst in s.active then Some(s.active[dst]) else None)
  {
    LookStep(s, t);
    assert TallyAt(s, t);
  }

  lemma Moved(s: State, step: Step, t: nat)
    requires TallyOk(s) && Enabled(s, step) && step != Look(t)
    requires t < |Do(s, step).tasks| && !Do(s, step).tasks[t].pc.Lookup?
    ensures t < |s.tasks| && !s.tasks[t].pc.Lookup?
    ensures TakesCached(Do(s, step).tasks[t]) <==> TakesCached(s.tasks[t])
    ensures OnCached(Do(s, step).tasks[t].pc).Some? ==>
              OnCached(Do(s, step).tasks[t].pc) == OnCached(s.tasks[t].pc)
  {
    OthersKept(s, step);
    if !step.Spawn? && step.t == t {
      assert TallyAt(s, t);
      PathStep(s, step);
    }
  }

  // Whose stream it is sent on

  /** What a stream has taken is for the peer it was published for, or from the goroutine that dialled it. */
  ghost predicate DestOk(s: State) {
    && (forall i :: 0 <= i < |s.log| ==> s.log[i].stream < |s.streams| && s.log[i].task < |s.tasks|)
    && (forall i, m :: 0 <= i < |s.log| && 0 <= m < |s.muxes| && s.log[i].stream == s.muxes[m].stream ==>
          s.tasks[s.log[i].task].dst == s.muxes[m].dst)
    && (forall i, t :: 0 <= i < |s.log| && 0 <= t < |s.tasks| && Own(s.tasks[t].pc) == Some(s.log[i].stream) ==>
          s.log[i].task == t)
  }

  lemma DestStep(s: State, step: Step)
    requires Shape(s) && DestOk(s) && Enabled(s, step)
    ensures DestOk(Do(s, step))
  {
    if step.Accept? {
      DestAccept(s, step);
    } else {
      var t := if step.Spawn? then |s.tasks| else step.t;
      OwnMoves(s, step);
      BytesKept(s, step);
      OthersKept(s, step);
      MuxesKept(s, step);
      NewMuxes(s, step);
      DestFrame(s, Do(s, step), t);
    }
  }

  /** A step that publishes a stream publishes it for the destination of its goroutine. */
  lemma NewMuxes(s: State, step: Step)
    requires Enabled(s, step)
    ensures forall m :: |s.muxes| <= m < |Do(s, step).muxes| ==>
              step.Put? && m == |s.muxes| && Do(s, step).muxes[m].dst == s.tasks[step.t].dst
  {
    if step.Put? {
      PutPublishes(s, step);
    } else {
      MuxCount(s, step);
    }
  }

  lemma MuxCount(s: State, step: Step)
    requires Enabled(s, step) && !step.Put?
    ensures |Do(s, step).muxes| == |s.muxes|
  {
  }

  lemma PutPublishes(s: State, step: Step)
    requires Enabled(s, step) && step.Put?
    ensures |Do(s, step).muxes| == |s.muxes| + 1
    ensures Do(s, step).muxes[|s.muxes|].dst == s.tasks[step.t].dst
  {
  }

  lemma DestFrame(s: State, s': State, t: nat)
    requires DestOk(s) && StreamMove(s, s', t) && s'.log == s.log
    requires forall u :: 0 <= u < |s.tasks| ==> s'.tasks[u].dst == s.tasks[u].dst
    requires forall m :: 0 <= m < |s.muxes| ==> s'.muxes[m].dst == s.muxes[m].dst
    requires forall m :: |s.muxes| <= m < |s'.muxes| ==> t < |s.tasks| && s'.muxes[m].dst == s.tasks[t].dst
    ensures DestOk(s')
  {
    forall i, m | 0 <= i < |s'.log| && 0 <= m < |s'.muxes| && s'.log[i].stream == s'.muxes[m].stream
      ensures s'.tasks[s'.log[i].task].dst == s'.muxes[m].dst
    {
      if m >= |s.muxes| {
        assert Own(s.tasks[t].pc) == Some(s.log[i].stream);
      }
    }
    forall i, u | 0 <= i < |s'.log| && 0 <= u < |s'.tasks| && Own(s'.tasks[u].pc) == Some(s'.log[i].stream)
      ensures s'.log[i].task == u
    {
      assert Own(s'.tasks[u].pc).Some?;
      assert Own(s.tasks[u].pc) == Some(s.log[i].stream);
    }
  }

  lemma DestAccept(s: State, step: Step)
    requires Shape(s) && DestOk(s) && Enabled(s, step) && step.Accept?
    ensures DestOk(Do(s, step))
  {
    var t := step.t;
    var x := StreamOf(s, s.tasks[t].pc.via);
    assert Target(s, t) == Some(x);
    WriterOwns(s, t, x);
    AcceptKeeps(s, step);
    DestLogged(s, Do(s, step), Entry(x, t, s.tasks[t].packet));
  }

  lemma AcceptKeeps(s: State, step: Step)
    requires Enabled(s, step) && step.Accept?
    ensures var s' := Do(s, step);
            && s'.muxes == s.muxes && |s'.streams| == |s.streams| && |s'.tasks| == |s.tasks|
            && (forall u :: 0 <= u < |s.tasks| ==>
                  s'.tasks[u].dst == s.tasks[u].dst && Own(s'.tasks[u].pc) == Own(s.tasks[u].pc))
            && var e := Entry(StreamOf(s, s.tasks[step.t].pc.via), step.t, s.tasks[step.t].packet);
               s'.log == s.log || s'.log == s.log + [e]
  {
  }

  /** The stream that a goroutine writes to was published for its destination, or is its own. */
  lemma WriterOwns(s: State, t: nat, x: nat)
    requires Shape(s) && t < |s.tasks| && Target(s, t) == Some(x)
    ensures forall m :: 0 <= m < |s.muxes| && s.muxes[m].stream == x ==> s.muxes[m].dst == s.tasks[t].dst
    ensures forall u :: 0 <= u < |s.tasks| && Own(s.tasks[u].pc) == Some(x) ==> u == t
  {
    forall m | 0 <= m < |s.muxes| && s.muxes[m].stream == x
      ensures s.muxes[m].dst == s.tasks[t].dst
    {
      WriterHolds(s, t, m);
    }
    forall u | 0 <= u < |s.tasks| && Own(s.tasks[u].pc) == Some(x)
      ensures u == t
    {
      OwnerWrites(s, t, u, x);
    }
  }

  lemma WriterHolds(s: State, t: nat, m: nat)
    requires LocksOk(s) && MuxesOk(s) && OwnedOk(s) && t < |s.tasks| && m < |s.muxes|
    requires Target(s, t) == Some(s.muxes[m].stream)
    ensures s.muxes[m].dst == s.tasks[t].dst
  {
  }

  lemma OwnerWrites(s: State, t: nat, u: nat, x: nat)
    requires LocksOk(s) && OwnedOk(s) && t < |s.tasks| && u < |s.tasks|
    requires Target(s, t) == Some(x) && Own(s.tasks[u].pc) == Some(x)
    ensures u == t
  {
    if Held(s.tasks[t].pc).Some? {
      OwnUnpublished(s, u, t);
    } else if u != t {
      OwnApart(s, t, u);
    }
  }

  lemma DestLogged(s: State, s': State, e: Entry)
    requires DestOk(s) && e.stream < |s.streams| && e.task < |s.tasks|
    requires s'.muxes == s.muxes && |s'.streams| == |s.streams| && |s'.tasks| == |s.tasks|
    requires forall u :: 0 <= u < |s.tasks| ==>
               s'.tasks[u].dst == s.tasks[u].dst && Own(s'.tasks[u].pc) == Own(s.tasks[u].pc)
    requires s'.log == s.log || s'.log == s.log + [e]
    requires forall m :: 0 <= m < |s.muxes| && s.muxes[m].stream == e.stream ==> s.muxes[m].dst == s.tasks[e.task].dst
    requires forall u :: 0 <= u < |s.tasks| && Own(s.tasks[u].pc) == Some(e.stream) ==> u == e.task
    ensures DestOk(s')
  {
  }

  lemma {:induction false} RunDest(steps: seq<Step>)
    requires Exec(steps).Some?
    ensures DestOk(Exec(steps).value)
  {
    if steps != [] {
      var n := |steps| - 1;
      RunDest(steps[..n]);
      RunInv(steps[..n]);
      DestStep(Exec(steps[..n]).value, steps[n]);
    }
  }

  /** No packet is ever sent on a stream that was published for another peer. */
  lemma RightDestination(steps: seq<Step>, i: nat, m: nat)
    requires Exec(steps).Some? && i < |Exec(steps).value.log| && m < |Exec(steps).value.muxes|
    requires Exec(steps).value.log[i].stream == Exec(steps).value.muxes[m].stream
    ensures var s := Exec(steps).value;
            && s.log[i].task < |Calls(steps)|
            && Calls(steps)[s.log[i].task] == (s.muxes[m].dst, s.log[i].packet)
  {
    RunDest(steps);
    RunInv(steps);
    CallsKept(steps, Exec(steps).value.log[i].task);
  }

  // Failed streams are closed

  /** A goroutine that deletes a stream from the cache, or unlocks it after a failure, has closed it. */
  ghost predicate ClosedFirst(s: State) {
    forall t :: 0 <= t < |s.tasks| && (s.tasks[t].pc.Evict? || (s.tasks[t].pc.Unlock? && !s.tasks[t].pc.ok)) ==>
      Target(s, t).Some? && Target(s, t).value < |s.streams| && s.streams[Target(s, t).value].closed
  }

  lemma ClosedFirstStep(s: State, step: Step)
    requires Shape(s) && ClosedFirst(s) && Enabled(s, step)
    ensures ClosedFirst(Do(s, step))
  {
    var s' := Do(s, step);
    OthersKept(s, step);
    forall t | 0 <= t < |s'.tasks| && (s'.tasks[t].pc.Evict? || (s'.tasks[t].pc.Unlock? && !s'.tasks[t].pc.ok))
      ensures Target(s', t).Some? && Target(s', t).value < |s'.streams| && s'.streams[Target(s', t).value].closed
    {
      if t < |s.tasks| && (step.Spawn? || t != step.t) {
        TargetKept(s, step, t);
        ClosedStaysPut(s, step, Target(s, t).value);
      } else {
        ClosedHere(s, step, t);
      }
    }
  }

  lemma ClosedHere(s: State, step: Step, t: nat)
    requires Shape(s) && ClosedFirst(s) && Enabled(s, step) && t < |Do(s, step).tasks|
    requires if step.Spawn? then t == |s.tasks| else t == step.t
    requires var pc := Do(s, step).tasks[t].pc; pc.Evict? || (pc.Unlock? && !pc.ok)
    ensures Target(Do(s, step), t).Some? && Target(Do(s, step), t).value < |Do(s, step).streams|
    ensures Do(s, step).streams[Target(Do(s, step), t).value].closed
  {
    EvictsAfter(s, step, t);
    if step.Close? {
      CloseCloses(s, step);
    } else {
      RemoveKeeps(s, step);
    }
  }

  lemma EvictsAfter(s: State, step: Step, t: nat)
    requires Enabled(s, step) && t < |Do(s, step).tasks|
    requires if step.Spawn? then t == |s.tasks| else t == step.t
    requires var pc := Do(s, step).tasks[t].pc; pc.Evict? || (pc.Unlock? && !pc.ok)
    ensures step.Close? || step.Remove?
    ensures step.Close? ==> Do(s, step).tasks[t].pc.Evict?
  {
    if WriteStep(step) {
      WritesOn(s, step);
    }
  }

  lemma WritesOn(s: State, step: Step)
    requires Enabled(s, step) && WriteStep(step)
    ensures !Do(s, step).tasks[step.t].pc.Evict? && !Do(s, step).tasks[step.t].pc.Unlock?
  {
  }

  lemma CloseCloses(s: State, step: Step)
    requires Enabled(s, step) && step.Close? && Do(s, step).tasks[step.t].pc.Evict?
    ensures Target(Do(s, step), step.t).Some? && Target(Do(s, step), step.t).value < |Do(s, step).streams|
    ensures Do(s, step).streams[Target(Do(s, step), step.t).value].closed
  {
  }

  lemma RemoveKeeps(s: State, step: Step)
    requires ClosedFirst(s) && Enabled(s, step) && step.Remove?
    ensures Target(Do(s, step), step.t).Some? && Target(Do(s, step), step.t).value < |Do(s, step).streams|
    ensures Do(s, step).streams[Target(Do(s, step), step.t).value].closed
  {
    assert Target(s, step.t).Some?;
  }

  /**
   * The way of a failure: an attempt that fails closes its stream; on the cached one it deletes the entry,
   * lets the lock go and dials; on one's own, and when the dial fails, it is final.
   */
  lemma FailurePath(s: State, step: Step)
    requires Enabled(s, step) && !step.Spawn? && step.t < |Do(s, step).tasks|
    ensures var pc, pc' := s.tasks[step.t].pc, Do(s, step).tasks[step.t].pc;
            && (step.WriteErr? ==> pc' == Closing(pc.via))
            && (step.Arm? && !step.ok ==>
                  pc' == Closing(if pc.ArmCached? then Cached(pc.mux) else Fresh(pc.stream)))
            && (step.Close? ==> pc' == if pc.via.Cached? then Evict(pc.via.mux) else Done(false))
            && (step.Remove? ==> pc' == Unlock(pc.mux, false))
            && (step.Release? ==> pc' == if pc.ok then Done(true) else Open)
            && (step.Dial? && !step.ok ==> pc' == Done(false))
  {
  }

  /** A stream is taken out of the cache, or its lock let go after a failure, only when it has been closed. */
  lemma {:induction false} RunClosedFirst(steps: seq<Step>)
    requires Exec(steps).Some?
    ensures ClosedFirst(Exec(steps).value)
  {
    if steps != [] {
      var n := |steps| - 1;
      RunClosedFirst(steps[..n]);
      RunInv(steps[..n]);
      ClosedFirstStep(Exec(steps[..n]).value, steps[n]);
    }
  }

  // A schedule on one stream

  /** The second goroutine, which has found the stream of the first in the cache, takes the lock and sends. */
  function SendCached(): seq<Step> {
    [Acquire(1)] + [Accept(1, 2)] + [WriteOk(1)] + [WriteOk(1)] + [Arm(1, true)] + [Release(1)]
  }

  function OneStream(dst: nat): seq<Step> {
    [Spawn(dst, [])] + [Look(0)] + SendFresh(0) + [Spawn(dst, [])] + [Look(1)] + SendCached()
  }

  /** The first goroutine is done and the second, for the same destination, is at `pc`. */
  ghost predicate SecondAt(s: State, dst: nat, pc: Pc, bytes: seq<Byte>, holder: Option<nat>) {
    && |s.tasks| == 2 && s.tasks[0].pc == Done(true)
    && s.tasks[1].dst == dst && s.tasks[1].packet == [] && s.tasks[1].pc == pc
    && s.streams == [Stream(bytes, false, None)] && s.muxes == [Mux(dst, 0, holder)] && s.active == map[dst := 0]
  }

  lemma FirstSent(dst: nat) returns (s: State)
    ensures Exec([Spawn(dst, [])] + [Look(0)] + SendFresh(0)) == Some(s)
    ensures |s.tasks| == 1 && s.tasks[0].pc == Done(true)
    ensures s.streams == [Stream(Frame([]), false, None)] && s.muxes == [Mux(dst, 0, None)] && s.active == map[dst := 0]
  {
    One([], INIT, Spawn(dst, []));
    assert [] + [Spawn(dst, [])] == [Spawn(dst, [])];
    var s1 := Do(INIT, Spawn(dst, []));
    assert s1.tasks == [Task(dst, [], Lookup, Untried, Untried)];
    One([Spawn(dst, [])], s1, Look(0));
    var s2 := Do(s1, Look(0));
    s := Sends([Spawn(dst, [])] + [Look(0)], s2, 0);
    assert [] + [Stream(Frame([]), false, None)] == [Stream(Frame([]), false, None)];
    assert [] + [Mux(dst, 0, None)] == [Mux(dst, 0, None)];
  }

  lemma SecondWaits(past: seq<Step>, s: State, dst: nat) returns (s': State)
    requires Exec(past) == Some(s) && |s.tasks| == 1 && s.tasks[0].pc == Done(true)
    requires s.streams == [Stream(Frame([]), false, None)] && s.muxes == [Mux(dst, 0, None)]
    requires s.active == map[dst := 0]
    ensures Exec(past + [Spawn(dst, [])] + [Look(1)]) == Some(s')
    ensures SecondAt(s', dst, Wait(0), Frame([]), None)
  {
    One(past, s, Spawn(dst, []));
    var s1 := Do(s, Spawn(dst, []));
    assert s1.tasks == s.tasks + [Task(dst, [], Lookup, Untried, Untried)];
    One(past + [Spawn(dst, [])], s1, Look(1));
    s' := Do(s1, Look(1));
  }

  lemma SecondLocks(past: seq<Step>, s: State, dst: nat) returns (s': State)
    requires Exec(past) == Some(s) && SecondAt(s, dst, Wait(0), Frame([]), None)
    ensures Exec(past + [Acquire(1)]) == Some(s')
    ensures SecondAt(s', dst, Header(Cached(0), 0), Frame([]), Some(1))
  {
    One(past, s, Acquire(1));
    s' := Do(s, Acquire(1));
  }

  lemma SecondTaken(past: seq<Step>, s: State, dst: nat) returns (s': State)
    requires Exec(past) == Some(s) && SecondAt(s, dst, Header(Cached(0), 0), Frame([]), Some(1))
    ensures Exec(past + [Accept(1, 2)]) == Some(s')
    ensures SecondAt(s', dst, Header(Cached(0), 2), Frame([]) + Frame([]), Some(1))
  {
    One(past, s, Accept(1, 2));
    s' := Do(s, Accept(1, 2));
    assert Frame([])[0..2] == Frame([]);
  }

  lemma SecondArms(past: seq<Step>, s: State, dst: nat) returns (s': State)
    requires Exec(past) == Some(s) && SecondAt(s, dst, Header(Cached(0), 2), Frame([]) + Frame([]), Some(1))
    ensures Exec(past + [WriteOk(1)] + [WriteOk(1)]) == Some(s')
    ensures SecondAt(s', dst, ArmCached(0), Frame([]) + Frame([]), Some(1))
  {
    One(past, s, WriteOk(1));
    var s1 := Do(s, WriteOk(1));
    One(past + [WriteOk(1)], s1, WriteOk(1));
    s' := Do(s1, WriteOk(1));
  }

  lemma SecondDone(past: seq<Step>, s: State, dst: nat) returns (s': State)
    requires Exec(past) == Some(s) && SecondAt(s, dst, ArmCached(0), Frame([]) + Frame([]), Some(1))
    ensures Exec(past + [Arm(1, true)] + [Release(1)]) == Some(s')
    ensures SecondAt(s', dst, Done(true), Frame([]) + Frame([]), None)
  {
    One(past, s, Arm(1, true));
    var s1 := Do(s, Arm(1, true));
    One(past + [Arm(1, true)], s1, Release(1));
    s' := Do(s1, Release(1));
  }

  lemma SecondSends(past: seq<Step>, s: State, dst: nat) returns (s': State)
    requires Exec(past) == Some(s) && SecondAt(s, dst, Wait(0), Frame([]), None)
    ensures Exec(past + SendCached()) == Some(s') && SecondAt(s', dst, Done(true), Frame([]) + Frame([]), None)
  {
    var s1 := SecondLocks(past, s, dst);
    var past1 := past + [Acquire(1)];
    var s2 := SecondTaken(past1, s1, dst);
    var past2 := past1 + [Accept(1, 2)];
    s' := SecondFinishes(past2, s2, dst);
    Rejoin(past);
  }

  lemma SecondFinishes(past: seq<Step>, s: State, dst: nat) returns (s': State)
    requires Exec(past) == Some(s) && SecondAt(s, dst, Header(Cached(0), 2), Frame([]) + Frame([]), Some(1))
    ensures Exec(past + [WriteOk(1)] + [WriteOk(1)] + [Arm(1, true)] + [Release(1)]) == Some(s')
    ensures SecondAt(s', dst, Done(true), Frame([]) + Frame([]), None)
  {
    var s1 := SecondArms(past, s, dst);
    s' := SecondDone(past + [WriteOk(1)] + [WriteOk(1)], s1, dst);
  }

  lemma Rejoin(past: seq<Step>)
    ensures past + [Acquire(1)] + [Accept(1, 2)] + [WriteOk(1)] + [WriteOk(1)] + [Arm(1, true)] + [Release(1)] ==
            past + SendCached()
  {
  }

  /** Two packets for one destination, one after the other: both end up as frames of one stream. */
  lemma SharedStream(dst: nat) returns (s: State)
    ensures Exec(OneStream(dst)) == Some(s) && |s.tasks| == 2 && s.tasks[0].pc == s.tasks[1].pc == Done(true)
    ensures |s.streams| == 1 && s.streams[0].bytes == Frame([]) + Frame([]) && On(s.log, 0) == [[], []]
  {
    var s1 := FirstSent(dst);
    var past := [Spawn(dst, [])] + [Look(0)] + SendFresh(0);
    var s2 := SecondWaits(past, s1, dst);
    s := SecondSends(past + [Spawn(dst, [])] + [Look(1)], s2, dst);
    BothFrames(OneStream(dst), s);
  }

  lemma BothFrames(steps: seq<Step>, s: State)
    requires Exec(steps) == Some(s) && |s.streams| == 1 && s.streams[0] == Stream(Frame([]) + Frame([]), false, None)
    ensures On(s.log, 0) == [[], []]
  {
    FramesStayWhole(steps, 0);
    var ps: seq<Packet> := [[], []];
    assert ps[1..] == [[]] && ps[1..][1..] == [];
    assert Flat(ps) + [] == Frame([]) + Frame([]);
    assert PartialOf([], []);
    FlatInjective(On(s.log, 0), [], ps, []);
  }
}
