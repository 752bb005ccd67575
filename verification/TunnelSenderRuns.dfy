/** The claims about every schedule of the sending goroutines. */
module TunnelSenderRuns {
  import opened Common
  import opened Frames
  import opened TunnelSender
  import opened TunnelSenderInv
  import opened TunnelSenderWire

  /** The frame of the attempt was accepted whole. */
  predicate Whole(a: Attempt) {
    a.Late? || a.DeadlineErr? || a.Sent?
  }

  predicate Failed(a: Attempt) {
    a.Short? || a.Late? || a.DeadlineErr?
  }

  /** Whole frames that the attempt under way has put on its stream. */
  function Current(task: Task): nat {
    if Writing(task.pc) then (if task.pc.sent == |Frame(task.packet)| then 1 else 0)
    else if task.pc.ArmCached? || task.pc.Publish? then 1 else 0
  }

  function Bit(b: bool): nat {
    if b then 1 else 0
  }

  predicate AttemptsOk(task: Task) {
    match task.pc
    case Header(Cached(_), _) => task.first == task.second == Untried
    case Payload(Cached(_), _) => task.first == task.second == Untried
    case Closing(Cached(_)) => Failed(task.first) && task.second.Untried?
    case Closing(Fresh(_)) => !task.first.Sent? && (task.second.Short? || task.second.Late?)
    case Lookup => task.first == task.second == Untried
    case Wait(_) => task.first == task.second == Untried
    case ArmCached(_) => task.first == task.second == Untried
    case Evict(_) => Failed(task.first) && task.second.Untried?
    case Unlock(_, ok) => (if ok then task.first.Sent? else Failed(task.first)) && task.second.Untried?
    case Done(true) => (task.first.Sent? && task.second.Untried?) || (!task.first.Sent? && task.second.Sent?)
    case Done(false) => !task.first.Sent? && !task.second.Sent? && !task.second.DeadlineErr?
    case _ => !task.first.Sent? && task.second.Untried?
  }

  ghost predicate TallyAt(s: State, t: nat)
    requires t < |s.tasks|
  {
    && AttemptsOk(s.tasks[t])
    && (Writing(s.tasks[t].pc) ==> s.tasks[t].pc.sent <= |Frame(s.tasks[t].packet)|)
    && (s.tasks[t].pc.Payload? ==> s.tasks[t].pc.sent >= 2)
    && Count(s.log, t) == Bit(Whole(s.tasks[t].first)) + Bit(Whole(s.tasks[t].second)) + Current(s.tasks[t])
  }

  ghost predicate TallyOk(s: State) {
    forall t :: 0 <= t < |s.tasks| ==> TallyAt(s, t)
  }

  lemma TallyStep(s: State, step: Step)
    requires WireOk(s) && TallyOk(s) && Enabled(s, step)
    ensures TallyOk(Do(s, step))
  {
    forall u | 0 <= u < |Do(s, step).tasks|
      ensures TallyAt(Do(s, step), u)
    {
      TaskCount(s, step);
      if u == |s.tasks| {
        TallyNew(s, step);
      } else if step.Spawn? || u != step.t {
        TallyElse(s, step, u);
      } else {
        TallyThis(s, step);
      }
    }
  }

  lemma TallyNew(s: State, step: Step)
    requires WireOk(s) && Enabled(s, step) && step.Spawn?
    ensures TallyAt(Do(s, step), |s.tasks|)
  {
    CountNone(s.log, |s.tasks|);
  }

  lemma TallyElse(s: State, step: Step, u: nat)
    requires u < |s.tasks| && TallyAt(s, u) && Enabled(s, step) && (step.Spawn? || u != step.t)
    ensures u < |Do(s, step).tasks| && TallyAt(Do(s, step), u)
  {
    OthersKept(s, step);
    LogStep(s, step, u);
  }

  lemma TallyThis(s: State, step: Step)
    requires TallyOk(s) && Enabled(s, step) && !step.Spawn?
    ensures step.t < |Do(s, step).tasks| && TallyAt(Do(s, step), step.t)
  {
    assert TallyAt(s, step.t);
    if WriteStep(step) {
      TallyWrite(s, step);
    } else if step.Arm? || step.Dial? || step.Put? {
      TallyTry(s, step);
    } else {
      TallyOther(s, step);
    }
  }

  lemma LogStep(s: State, step: Step, u: nat)
    requires Enabled(s, step)
    ensures Count(Do(s, step).log, u) ==
            Count(s.log, u) + Bit(step.Accept? && u == step.t &&
              s.tasks[step.t].pc.sent + step.k == |Frame(s.tasks[step.t].packet)|)
  {
    if step.Accept? {
      var task := s.tasks[step.t];
      CountSnoc(s.log, Entry(StreamOf(s, task.pc.via), step.t, task.packet), u);
    }
  }

  lemma TallyWrite(s: State, step: Step)
    requires WriteStep(step) && Enabled(s, step) && TallyAt(s, step.t)
    ensures step.t < |Do(s, step).tasks| && TallyAt(Do(s, step), step.t)
  {
    LogStep(s, step, step.t);
    if step.Accept? {
      TallyAccept(s, step);
    }
  }

  lemma TallyAccept(s: State, step: Step)
    requires step.Accept? && Enabled(s, step) && TallyAt(s, step.t)
    ensures step.t < |Do(s, step).tasks| && TallyAt(Do(s, step), step.t)
  {
    LogStep(s, step, step.t);
    AcceptedTask(s, step);
    TallyProgress(s, Do(s, step), step.t, s.tasks[step.t].pc.sent + step.k);
  }

  lemma TallyProgress(s: State, s': State, t: nat, upto: nat)
    requires t < |s.tasks| && TallyAt(s, t) && t < |s'.tasks| && Progress(s.tasks[t], s'.tasks[t], upto)
    requires Count(s'.log, t) == Count(s.log, t) + Bit(upto == |Frame(s.tasks[t].packet)|)
    ensures TallyAt(s', t)
  {
    if upto == |Frame(s.tasks[t].packet)| {
      TallyWhole(s.tasks[t], s'.tasks[t], upto);
    } else {
      TallyPart(s.tasks[t], s'.tasks[t], upto);
    }
  }

  /** The task after its stream has taken the bytes up to `upto`. */
  predicate Progress(task: Task, task': Task, upto: nat) {
    && Writing(task.pc) && task.pc.sent < upto <= Limit(task)
    && task' == task.(pc := if task.pc.Header? then Header(task.pc.via, upto) else Payload(task.pc.via, upto))
  }

  lemma AcceptedTask(s: State, step: Step)
    requires step.Accept? && Enabled(s, step)
    ensures step.t < |Do(s, step).tasks|
    ensures Progress(s.tasks[step.t], Do(s, step).tasks[step.t], s.tasks[step.t].pc.sent + step.k)
  {
  }

  lemma TallyWhole(task: Task, task': Task, upto: nat)
    requires Progress(task, task', upto) && upto == |Frame(task.packet)| && AttemptsOk(task)
    requires task.pc.Payload? ==> task.pc.sent >= 2
    ensures AttemptsOk(task') && Current(task') == Current(task) + 1
    ensures task'.pc.sent <= |Frame(task'.packet)| && (task'.pc.Payload? ==> task'.pc.sent >= 2)
  {
  }

  lemma TallyPart(task: Task, task': Task, upto: nat)
    requires Progress(task, task', upto) && upto != |Frame(task.packet)| && AttemptsOk(task)
    requires task.pc.Payload? ==> task.pc.sent >= 2
    ensures AttemptsOk(task') && Current(task') == Current(task)
    ensures task'.pc.sent <= |Frame(task'.packet)| && (task'.pc.Payload? ==> task'.pc.sent >= 2)
  {
  }

  lemma TallyTry(s: State, step: Step)
    requires (step.Arm? || step.Dial? || step.Put?) && Enabled(s, step) && TallyAt(s, step.t)
    ensures step.t < |Do(s, step).tasks| && TallyAt(Do(s, step), step.t)
  {
    if step.Arm? {
      TallyArm(s, step);
    } else {
      LogStep(s, step, step.t);
    }
  }

  lemma TallyArm(s: State, step: Step)
    requires step.Arm? && Enabled(s, step) && TallyAt(s, step.t)
    ensures step.t < |Do(s, step).tasks| && TallyAt(Do(s, step), step.t)
  {
    LogStep(s, step, step.t);
  }

  lemma TallyOther(s: State, step: Step)
    requires !step.Spawn? && !WriteStep(step) && !step.Arm? && !step.Dial? && !step.Put?
    requires Enabled(s, step) && TallyAt(s, step.t)
    ensures step.t < |Do(s, step).tasks| && TallyAt(Do(s, step), step.t)
  {
    LogStep(s, step, step.t);
  }

  ghost predicate Inv(s: State) {
    Shape(s) && EvictOk(s) && WireOk(s) && TasksOn(s) && MidsOn(s) && TallyOk(s)
  }

  lemma InvStep(s: State, step: Step)
    requires Inv(s) && Enabled(s, step)
    ensures Inv(Do(s, step))
  {
    CacheStep(s, step);
    LocksStep(s, step);
    var t := if step.Spawn? then |s.tasks| else step.t;
    OwnMoves(s, step);
    MuxesStep(s, Do(s, step), t);
    OwnedStep(s, Do(s, step), t);
    EvictStep(s, step);
    WireStep(s, step);
    TasksStep(s, step);
    MidsStep(s, step);
    TallyStep(s, step);
  }

  /** Every schedule keeps the invariant. */
  lemma {:induction false} RunInv(steps: seq<Step>)
    requires Exec(steps).Some?
    ensures Inv(Exec(steps).value)
  {
    if steps != [] {
      RunInv(steps[..|steps| - 1]);
      InvStep(Exec(steps[..|steps| - 1]).value, steps[|steps| - 1]);
    }
  }

  /**
   * Whatever the schedule and the failures, a stream has accepted whole frames and after them at
   * most a proper prefix of one frame; if the stream is still open, the goroutine of that frame is
   * writing it or is about to close the stream.
   */
  lemma FramesStayWhole(steps: seq<Step>, x: nat)
    requires Exec(steps).Some? && x < |Exec(steps).value.streams|
    ensures var s := Exec(steps).value;
            var st := s.streams[x];
            && st.bytes == Flat(On(s.log, x)) + MidBytes(st.mid)
            && Partial(MidBytes(st.mid))
            && (st.mid.Some? && !st.closed ==>
                  (st.mid.value.task < |s.tasks| && Target(s, st.mid.value.task) == Some(x)
                   && s.tasks[st.mid.value.task].packet == st.mid.value.packet
                   && (Writing(s.tasks[st.mid.value.task].pc) || s.tasks[st.mid.value.task].pc.Closing?)))
  {
    RunInv(steps);
    var s := Exec(steps).value;
    assert WireAt(s.streams[x], s.log, x) && MidOn(s, x);
    match s.streams[x].mid {
      case None => assert PartialOf([], []);
      case Some(mid) => assert PartialOf(MidBytes(Some(mid)), mid.packet);
    }
  }

  /** A closed stream accepts nothing more. */
  lemma ClosedStaysPut(s: State, step: Step, x: nat)
    requires Enabled(s, step) && x < |s.streams| && s.streams[x].closed
    ensures x < |Do(s, step).streams| && Do(s, step).streams[x] == s.streams[x]
  {
  }

  /**
   * A stream closed here is in the cache only while some goroutine is between its Close and its
   * delete, and no stream is published twice.
   */
  lemma CacheHoldsOpenStreams(steps: seq<Step>, d: nat)
    requires Exec(steps).Some? && d in Exec(steps).value.active
    ensures var s := Exec(steps).value;
            var m := s.active[d];
            && m < |s.muxes| && s.muxes[m].stream < |s.streams| && s.muxes[m].dst == d
            && (s.streams[s.muxes[m].stream].closed ==>
                  exists t :: 0 <= t < |s.tasks| && s.tasks[t].pc == Evict(m))
            && (forall n :: 0 <= n < |s.muxes| && n != m ==> s.muxes[n].stream != s.muxes[m].stream)
  {
    RunInv(steps);
    assert ClosedOnlyByEvictor(Exec(steps).value, Exec(steps).value.active[d]);
  }

  /**
   * A `sendPacket` that succeeds has put its frame on the wire once; twice exactly when the attempt
   * on the cached stream failed after the stream had taken the whole frame. When writes that fail
   * have stopped early, as io.Writer asks, that is when SetWriteDeadline failed.
   */
  lemma OneFrameOrTwo(steps: seq<Step>, t: nat)
    requires Exec(steps).Some? && t < |Exec(steps).value.tasks|
    ensures var s := Exec(steps).value;
            var task := s.tasks[t];
            && (task.pc == Done(true) ==>
                  Count(s.log, t) == if task.first.DeadlineErr? || task.first.Late? then 2 else 1)
            && (task.pc == Done(false) ==> Count(s.log, t) == Bit(Whole(task.first)) + Bit(task.second.Late?))
            && (forall i :: 0 <= i < |s.log| && s.log[i].task == t ==> s.log[i].packet == task.packet)
  {
    RunInv(steps);
    assert TallyAt(Exec(steps).value, t);
  }

  /**
   * A goroutine gives up only on a stream of its own: when no stream could be opened, or after closing
   * the one it opened. A failure on the cached stream always leads to another attempt.
   */
  lemma GivesUpOnlyAfterDialling(steps: seq<Step>, step: Step, t: nat)
    requires Exec(steps).Some? && Enabled(Exec(steps).value, step) && t < |Exec(steps).value.tasks|
    requires !Exec(steps).value.tasks[t].pc.Done? && Do(Exec(steps).value, step).tasks[t].pc == Done(false)
    ensures var task := Exec(steps).value.tasks[t];
            && !task.first.Sent?
            && ((step == Dial(t, false) && task.pc.Open?)
                || (step == Close(t) && Own(task.pc).Some? && Failed(task.second)))
  {
    RunInv(steps);
    GivesUpAt(Exec(steps).value, step, t);
  }

  lemma GivesUpAt(s: State, step: Step, t: nat)
    requires t < |s.tasks| && TallyAt(s, t) && Enabled(s, step)
    requires !s.tasks[t].pc.Done? && Do(s, step).tasks[t].pc == Done(false)
    ensures !s.tasks[t].first.Sent?
    ensures (step == Dial(t, false) && s.tasks[t].pc.Open?)
            || (step == Close(t) && Own(s.tasks[t].pc).Some? && Failed(s.tasks[t].second))
  {
    OthersKept(s, step);
  }
}
