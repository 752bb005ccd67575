/** What every schedule of the sending goroutines keeps. */
module TunnelSenderInv {
  import opened Common
  import opened TunnelSender

  /** The lock a goroutine holds. */
  function Held(pc: Pc): Option<nat> {
    match pc
    case Header(Cached(m), _) => Some(m)
    case Payload(Cached(m), _) => Some(m)
    case Closing(Cached(m)) => Some(m)
    case ArmCached(m) => Some(m)
    case Evict(m) => Some(m)
    case Unlock(m, _) => Some(m)
    case _ => None
  }

  /** The stream a goroutine has dialled and not yet published or given up. */
  function Own(pc: Pc): Option<nat> {
    match pc
    case Header(Fresh(x), _) => Some(x)
    case Payload(Fresh(x), _) => Some(x)
    case Closing(Fresh(x)) => Some(x)
    case ArmFresh(x) => Some(x)
    case Publish(x) => Some(x)
    case _ => None
  }

  /** The stream a goroutine may write to or close next. */
  function Target(s: State, t: nat): Option<nat>
    requires t < |s.tasks|
  {
    match Held(s.tasks[t].pc)
    case Some(m) => Some(MuxStream(s, m))
    case None => Own(s.tasks[t].pc)
  }

  // Locks, the cache and the ownership of streams

  ghost predicate CacheOk(s: State) {
    && (forall d :: d in s.active ==> s.active[d] < |s.muxes| && s.muxes[s.active[d]].dst == d)
    && (forall t :: 0 <= t < |s.tasks| && s.tasks[t].pc.Wait? ==>
          s.tasks[t].pc.mux < |s.muxes| && s.muxes[s.tasks[t].pc.mux].dst == s.tasks[t].dst)
  }

  ghost predicate LocksOk(s: State) {
    && (forall m :: 0 <= m < |s.muxes| && s.muxes[m].holder.Some? ==>
          s.muxes[m].holder.value < |s.tasks| && Held(s.tasks[s.muxes[m].holder.value].pc) == Some(m))
    && (forall t :: 0 <= t < |s.tasks| && Held(s.tasks[t].pc).Some? ==>
          var m := Held(s.tasks[t].pc).value;
          m < |s.muxes| && s.muxes[m].holder == Some(t) && s.muxes[m].dst == s.tasks[t].dst)
  }

  ghost predicate MuxesOk(s: State) {
    && (forall m :: 0 <= m < |s.muxes| ==> s.muxes[m].stream < |s.streams|)
    && (forall m, n :: 0 <= m < n < |s.muxes| ==> s.muxes[m].stream != s.muxes[n].stream)
  }

  ghost predicate OwnedOk(s: State) {
    && (forall t :: 0 <= t < |s.tasks| && Own(s.tasks[t].pc).Some? ==>
          && Own(s.tasks[t].pc).value < |s.streams|
          && !s.streams[Own(s.tasks[t].pc).value].closed)
    && (forall t, m :: 0 <= t < |s.tasks| && Own(s.tasks[t].pc).Some? && 0 <= m < |s.muxes| ==>
          s.muxes[m].stream != Own(s.tasks[t].pc).value)
    && (forall t, u :: 0 <= t < u < |s.tasks| && Own(s.tasks[t].pc).Some? ==> Own(s.tasks[t].pc) != Own(s.tasks[u].pc))
  }

  /** A closed stream in the cache belongs to a goroutine that has closed it and not yet deleted it. */
  ghost predicate EvictOk(s: State) {
    forall d :: d in s.active ==> ClosedOnlyByEvictor(s, s.active[d])
  }

  ghost predicate ClosedOnlyByEvictor(s: State, m: nat) {
    && m < |s.muxes| && s.muxes[m].stream < |s.streams|
    && (s.streams[s.muxes[m].stream].closed ==>
          && s.muxes[m].holder.Some? && s.muxes[m].holder.value < |s.tasks|
          && s.tasks[s.muxes[m].holder.value].pc == Evict(m))
  }

  ghost predicate Shape(s: State) {
    CacheOk(s) && LocksOk(s) && MuxesOk(s) && OwnedOk(s)
  }

  predicate WriteStep(step: Step) {
    step.Accept? || step.WriteOk? || step.WriteErr?
  }

  /** Tasks only ever move on: packets and destinations stay, and one step moves one task. */
  ghost predicate OneMoved(s: State, s': State, step: Step) {
    && |s.tasks| <= |s'.tasks| <= |s.tasks| + 1
    && (forall u :: 0 <= u < |s.tasks| ==> s'.tasks[u].dst == s.tasks[u].dst && s'.tasks[u].packet == s.tasks[u].packet)
    && (forall u :: 0 <= u < |s.tasks| && (step.Spawn? || u != step.t) ==> s'.tasks[u] == s.tasks[u])
    && (|s.tasks| < |s'.tasks| ==> s'.tasks[|s.tasks|].pc == Lookup)
  }

  lemma OthersKept(s: State, step: Step)
    requires Enabled(s, step)
    ensures OneMoved(s, Do(s, step), step)
  {
    if WriteStep(step) {
      OthersKeptWriting(s, step);
    } else {
      OthersKeptElse(s, step);
    }
  }

  lemma OthersKeptWriting(s: State, step: Step)
    requires Enabled(s, step) && WriteStep(step)
    ensures OneMoved(s, Do(s, step), step)
  {
  }

  lemma OthersKeptElse(s: State, step: Step)
    requires Enabled(s, step) && !WriteStep(step)
    ensures OneMoved(s, Do(s, step), step)
  {
  }

  lemma CacheStep(s: State, step: Step)
    requires CacheOk(s) && Enabled(s, step)
    ensures CacheOk(Do(s, step))
  {
    var s' := Do(s, step);
    OthersKept(s, step);
    MuxesKept(s, step);
    forall t | 0 <= t < |s'.tasks| && s'.tasks[t].pc.Wait?
      ensures s'.tasks[t].pc.mux < |s'.muxes| && s'.muxes[s'.tasks[t].pc.mux].dst == s'.tasks[t].dst
    {
      WaitersKnown(s, step, t);
    }
    ActiveKnown(s, step);
  }

  lemma MuxesKept(s: State, step: Step)
    requires Enabled(s, step)
    ensures |s.muxes| <= |Do(s, step).muxes|
    ensures forall m :: 0 <= m < |s.muxes| ==>
              Do(s, step).muxes[m].stream == s.muxes[m].stream && Do(s, step).muxes[m].dst == s.muxes[m].dst
  {
  }

  /** A goroutine waits for a lock only after finding it in the cache. */
  lemma WaitersKnown(s: State, step: Step, t: nat)
    requires Enabled(s, step) && t < |Do(s, step).tasks| && Do(s, step).tasks[t].pc.Wait?
    ensures t < |s.tasks|
    ensures Do(s, step).tasks[t].pc == s.tasks[t].pc ||
            (s.tasks[t].dst in s.active && Do(s, step).tasks[t].pc == Wait(s.active[s.tasks[t].dst]))
  {
  }

  lemma ActiveKnown(s: State, step: Step)
    requires Enabled(s, step)
    ensures forall d :: d in Do(s, step).active ==>
              || (d in s.active && Do(s, step).active[d] == s.active[d])
              || (step.Put? && d == s.tasks[step.t].dst && Do(s, step).active[d] == |s.muxes| < |Do(s, step).muxes|
                  && Do(s, step).muxes[|s.muxes|].dst == d)
  {
  }

  predicate Locking(step: Step) {
    step.Acquire? || step.Release? || step.Put?
  }

  lemma HeldKept(s: State, step: Step)
    requires Enabled(s, step) && !Locking(step)
    ensures Do(s, step).muxes == s.muxes
    ensures forall u :: 0 <= u < |s.tasks| ==> Held(Do(s, step).tasks[u].pc) == Held(s.tasks[u].pc)
  {
    if !step.Spawn? {
      OthersKept(s, step);
      if WriteStep(step) {
        HeldKeptWriting(s, step);
      } else {
        HeldKeptElse(s, step);
      }
    }
  }

  lemma HeldKeptWriting(s: State, step: Step)
    requires Enabled(s, step) && WriteStep(step)
    ensures Do(s, step).muxes == s.muxes
    ensures Held(Do(s, step).tasks[step.t].pc) == Held(s.tasks[step.t].pc)
  {
  }

  lemma HeldKeptElse(s: State, step: Step)
    requires Enabled(s, step) && !Locking(step) && !WriteStep(step) && !step.Spawn?
    ensures Do(s, step).muxes == s.muxes
    ensures Held(Do(s, step).tasks[step.t].pc) == Held(s.tasks[step.t].pc)
  {
  }

  lemma LocksStep(s: State, step: Step)
    requires CacheOk(s) && LocksOk(s) && Enabled(s, step)
    ensures LocksOk(Do(s, step))
  {
    var s' := Do(s, step);
    OthersKept(s, step);
    if Locking(step) {
      LocksMove(s, step);
    } else {
      HeldKept(s, step);
      LocksFrame(s, s');
    }
  }

  /** Only task `t` changes, and keeps its destination. */
  ghost predicate Only(s: State, s': State, t: nat) {
    && t < |s.tasks| == |s'.tasks|
    && s'.tasks[t].dst == s.tasks[t].dst
    && forall u :: 0 <= u < |s.tasks| && u != t ==> s'.tasks[u] == s.tasks[u]
  }

  lemma LocksMove(s: State, step: Step)
    requires CacheOk(s) && LocksOk(s) && Enabled(s, step) && Locking(step)
    ensures LocksOk(Do(s, step))
  {
    if step.Acquire? {
      AcquireDoes(s, step);
      LocksAcquire(s, Do(s, step), step.t);
    } else if step.Release? {
      ReleaseDoes(s, step);
      LocksRelease(s, Do(s, step), step.t);
    } else {
      PutDoes(s, step);
      LocksPut(s, Do(s, step), step.t);
    }
  }

  lemma AcquireDoes(s: State, step: Step)
    requires Enabled(s, step) && step.Acquire?
    ensures Only(s, Do(s, step), step.t)
    ensures Held(Do(s, step).tasks[step.t].pc) == Some(s.tasks[step.t].pc.mux)
    ensures Do(s, step).muxes == Hold(s, s.tasks[step.t].pc.mux, Some(step.t)).muxes
  {
  }

  lemma ReleaseDoes(s: State, step: Step)
    requires Enabled(s, step) && step.Release?
    ensures Only(s, Do(s, step), step.t)
    ensures Held(s.tasks[step.t].pc) == Some(s.tasks[step.t].pc.mux) && Held(Do(s, step).tasks[step.t].pc).None?
    ensures Do(s, step).muxes == Hold(s, s.tasks[step.t].pc.mux, None).muxes
  {
  }

  lemma PutDoes(s: State, step: Step)
    requires Enabled(s, step) && step.Put?
    ensures Only(s, Do(s, step), step.t)
    ensures Held(s.tasks[step.t].pc).None? && Held(Do(s, step).tasks[step.t].pc).None?
    ensures |Do(s, step).muxes| == |s.muxes| + 1 && Do(s, step).muxes[|s.muxes|].holder.None?
    ensures forall m :: 0 <= m < |s.muxes| ==> Do(s, step).muxes[m] == s.muxes[m]
  {
  }

  lemma LocksFrame(s: State, s': State)
    requires LocksOk(s)
    requires s'.muxes == s.muxes && |s.tasks| <= |s'.tasks| <= |s.tasks| + 1
    requires forall u :: 0 <= u < |s.tasks| ==>
               Held(s'.tasks[u].pc) == Held(s.tasks[u].pc) && s'.tasks[u].dst == s.tasks[u].dst
    requires |s.tasks| < |s'.tasks| ==> s'.tasks[|s.tasks|].pc == Lookup
    ensures LocksOk(s')
  {
  }

  lemma LocksAcquire(s: State, s': State, t: nat)
    requires LocksOk(s) && CacheOk(s) && Only(s, s', t)
    requires s.tasks[t].pc.Wait? && s.muxes[s.tasks[t].pc.mux].holder.None?
    requires Held(s'.tasks[t].pc) == Some(s.tasks[t].pc.mux)
    requires s'.muxes == Hold(s, s.tasks[t].pc.mux, Some(t)).muxes
    ensures LocksOk(s')
  {
  }

  lemma LocksRelease(s: State, s': State, t: nat)
    requires LocksOk(s) && Only(s, s', t)
    requires Held(s.tasks[t].pc).Some? && Held(s'.tasks[t].pc).None?
    requires s'.muxes == Hold(s, Held(s.tasks[t].pc).value, None).muxes
    ensures LocksOk(s')
  {
  }

  lemma LocksPut(s: State, s': State, t: nat)
    requires LocksOk(s) && Only(s, s', t)
    requires Held(s.tasks[t].pc).None? && Held(s'.tasks[t].pc).None?
    requires |s'.muxes| == |s.muxes| + 1 && s'.muxes[|s.muxes|].holder.None?
    requires forall m :: 0 <= m < |s.muxes| ==> s'.muxes[m] == s.muxes[m]
    ensures LocksOk(s')
  {
    forall m | 0 <= m < |s'.muxes| && s'.muxes[m].holder.Some?
      ensures s'.muxes[m].holder.value < |s'.tasks| && Held(s'.tasks[s'.muxes[m].holder.value].pc) == Some(m)
    {
      assert s'.muxes[m] == s.muxes[m];
    }
  }

  /**
   * How a step of goroutine `t` can touch streams: it keeps or drops the stream it owns, takes a
   * new one, closes only its target and then owns none, publishes only what it owned.
   */
  ghost predicate StreamMove(s: State, s': State, t: nat) {
    && |s.tasks| <= |s'.tasks| && |s.streams| <= |s'.streams| && |s.muxes| <= |s'.muxes|
    && (forall u :: 0 <= u < |s'.tasks| && Own(s'.tasks[u].pc).Some? ==>
          u < |s.tasks| &&
          (Own(s'.tasks[u].pc) == Own(s.tasks[u].pc) || (u == t && Own(s'.tasks[u].pc) == Some(|s.streams|))))
    && (forall u :: 0 <= u < |s'.tasks| && Own(s'.tasks[u].pc) == Some(|s.streams|) ==> |s.streams| < |s'.streams|)
    && (forall x :: 0 <= x < |s'.streams| && s'.streams[x].closed ==>
          x < |s.streams| && (s.streams[x].closed ||
          (t < |s.tasks| && t < |s'.tasks| && Target(s, t) == Some(x) && Own(s'.tasks[t].pc).None?)))
    && (forall m :: 0 <= m < |s'.muxes| ==>
          if m < |s.muxes| then s'.muxes[m].stream == s.muxes[m].stream
          else
            && m == |s.muxes| && t < |s.tasks|
            && Own(s.tasks[t].pc) == Some(s'.muxes[m].stream) && Own(s'.tasks[t].pc).None?)
  }

  lemma OwnMoves(s: State, step: Step)
    requires OwnedOk(s) && Enabled(s, step)
    ensures StreamMove(s, Do(s, step), if step.Spawn? then |s.tasks| else step.t)
  {
    match step {
      case Spawn(_, _) =>
      case Close(_) => CloseMoves(s, step);
      case Dial(_, _) => DialMoves(s, step);
      case Put(_) => PutMoves(s, step);
      case _ =>
        if WriteStep(step) {
          WriteMoves(s, step);
        } else if step.Acquire? || step.Release? || step.Remove? {
          LockMoves(s, step);
        } else {
          OtherMoves(s, step);
        }
    }
  }

  lemma CloseMoves(s: State, step: Step)
    requires OwnedOk(s) && Enabled(s, step) && step.Close?
    ensures StreamMove(s, Do(s, step), step.t)
  {
  }

  lemma DialMoves(s: State, step: Step)
    requires OwnedOk(s) && Enabled(s, step) && step.Dial?
    ensures StreamMove(s, Do(s, step), step.t)
  {
  }

  lemma PutMoves(s: State, step: Step)
    requires OwnedOk(s) && Enabled(s, step) && step.Put?
    ensures StreamMove(s, Do(s, step), step.t)
  {
  }

  lemma WriteMoves(s: State, step: Step)
    requires OwnedOk(s) && Enabled(s, step) && WriteStep(step)
    ensures StreamMove(s, Do(s, step), step.t)
  {
  }

  lemma LockMoves(s: State, step: Step)
    requires OwnedOk(s) && Enabled(s, step) && (step.Acquire? || step.Release? || step.Remove?)
    ensures StreamMove(s, Do(s, step), step.t)
  {
  }

  lemma OtherMoves(s: State, step: Step)
    requires OwnedOk(s) && Enabled(s, step) && (step.Look? || step.Arm?)
    ensures StreamMove(s, Do(s, step), step.t)
  {
    if step.Arm? {
      ArmMoves(s, step);
    }
  }

  lemma ArmMoves(s: State, step: Step)
    requires OwnedOk(s) && Enabled(s, step) && step.Arm?
    ensures StreamMove(s, Do(s, step), step.t)
  {
  }

  lemma OwnedStep(s: State, s': State, t: nat)
    requires Shape(s) && StreamMove(s, s', t)
    ensures OwnedOk(s')
  {
    OwnedOpen(s, s', t);
    OwnedApart(s, s', t);
  }

  lemma MuxesStep(s: State, s': State, t: nat)
    requires MuxesOk(s) && OwnedOk(s) && StreamMove(s, s', t)
    ensures MuxesOk(s')
  {
  }

  lemma OwnedOpen(s: State, s': State, t: nat)
    requires Shape(s) && StreamMove(s, s', t)
    ensures forall u :: 0 <= u < |s'.tasks| && Own(s'.tasks[u].pc).Some? ==>
          && Own(s'.tasks[u].pc).value < |s'.streams|
          && !s'.streams[Own(s'.tasks[u].pc).value].closed
  {
    forall u | 0 <= u < |s'.tasks| && Own(s'.tasks[u].pc).Some?
      ensures Own(s'.tasks[u].pc).value < |s'.streams|
      ensures !s'.streams[Own(s'.tasks[u].pc).value].closed
    {
    }
  }

  lemma OwnedApart(s: State, s': State, t: nat)
    requires Shape(s) && StreamMove(s, s', t)
    ensures forall u, m :: 0 <= u < |s'.tasks| && Own(s'.tasks[u].pc).Some? && 0 <= m < |s'.muxes| ==>
          s'.muxes[m].stream != Own(s'.tasks[u].pc).value
    ensures forall u, v :: 0 <= u < v < |s'.tasks| && Own(s'.tasks[u].pc).Some? ==>
          Own(s'.tasks[u].pc) != Own(s'.tasks[v].pc)
  {
  }

  lemma EvictStep(s: State, step: Step)
    requires Shape(s) && EvictOk(s) && Enabled(s, step)
    ensures EvictOk(Do(s, step))
  {
    var s' := Do(s, step);
    forall d | d in s'.active
      ensures ClosedOnlyByEvictor(s', s'.active[d])
    {
      ActiveKnown(s, step);
      if step.Close? {
        EvictClose(s, step, d);
      } else if step.Remove? {
        EvictRemove(s, step, d);
      } else if step.Put? {
        EvictPut(s, step, d);
      } else {
        assert ClosedOnlyByEvictor(s, s.active[d]);
        if WriteStep(step) {
          EvictWrite(s, step, s.active[d]);
        } else {
          EvictOther(s, step, s.active[d]);
        }
      }
    }
  }

  lemma EvictPut(s: State, step: Step, d: nat)
    requires OwnedOk(s) && EvictOk(s) && Enabled(s, step) && step.Put? && d in Do(s, step).active
    ensures ClosedOnlyByEvictor(Do(s, step), Do(s, step).active[d])
  {
    if d != s.tasks[step.t].dst {
      assert ClosedOnlyByEvictor(s, s.active[d]);
    }
  }

  lemma EvictClose(s: State, step: Step, d: nat)
    requires MuxesOk(s) && LocksOk(s) && OwnedOk(s) && EvictOk(s)
    requires Enabled(s, step) && step.Close? && d in s.active
    ensures ClosedOnlyByEvictor(Do(s, step), s.active[d])
  {
    ClosedByHolder(s, Do(s, step), step.t, d);
  }

  lemma ClosedByHolder(s: State, s': State, t: nat, d: nat)
    requires MuxesOk(s) && LocksOk(s) && OwnedOk(s) && EvictOk(s)
    requires t < |s.tasks| && s.tasks[t].pc.Closing?
    requires d in s.active && Only(s, s', t) && s'.active == s.active && s'.muxes == s.muxes
    requires Target(s, t).Some? && Target(s, t).value < |s.streams|
    requires s'.streams == s.streams[Target(s, t).value := s.streams[Target(s, t).value].(closed := true)]
    requires Held(s.tasks[t].pc).Some? ==> s'.tasks[t].pc == Evict(Held(s.tasks[t].pc).value)
    ensures ClosedOnlyByEvictor(s', s'.active[d])
  {
    assert ClosedOnlyByEvictor(s, s.active[d]);
  }

  lemma EvictRemove(s: State, step: Step, d: nat)
    requires LocksOk(s) && CacheOk(s) && EvictOk(s)
    requires Enabled(s, step) && step.Remove? && d in Do(s, step).active
    ensures ClosedOnlyByEvictor(Do(s, step), Do(s, step).active[d])
  {
    assert ClosedOnlyByEvictor(s, s.active[d]);
  }

  lemma EvictOther(s: State, step: Step, m: nat)
    requires LocksOk(s) && Enabled(s, step) && ClosedOnlyByEvictor(s, m)
    requires !WriteStep(step) && !step.Close? && !step.Remove? && !step.Put?
    ensures ClosedOnlyByEvictor(Do(s, step), m)
  {
    if step.Acquire? || step.Release? {
      EvictLock(s, step, m);
    } else {
      EvictMove(s, step, m);
    }
  }

  lemma EvictLock(s: State, step: Step, m: nat)
    requires LocksOk(s) && Enabled(s, step) && ClosedOnlyByEvictor(s, m) && (step.Acquire? || step.Release?)
    ensures ClosedOnlyByEvictor(Do(s, step), m)
  {
  }

  lemma EvictMove(s: State, step: Step, m: nat)
    requires Enabled(s, step) && ClosedOnlyByEvictor(s, m)
    requires step.Spawn? || step.Look? || step.Arm? || step.Dial?
    ensures ClosedOnlyByEvictor(Do(s, step), m)
  {
  }

  lemma EvictWrite(s: State, step: Step, m: nat)
    requires Enabled(s, step) && ClosedOnlyByEvictor(s, m) && WriteStep(step)
    ensures ClosedOnlyByEvictor(Do(s, step), m)
  {
  }
}
