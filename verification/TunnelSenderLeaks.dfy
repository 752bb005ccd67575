/** Published streams that leave the cache while they are open, and are never used or closed again. */
module TunnelSenderLeaks {
  import opened Common
  import opened Frames
  import opened TunnelSender
  import opened TunnelSenderInv
  import opened TunnelSenderWire
  import TunnelSenderRuns

  predicate Cached(s: State, m: nat) {
    m < |s.muxes| && s.muxes[m].dst in s.active && s.active[s.muxes[m].dst] == m
  }

  /** A goroutine with this destination publishes its stream, or deletes what the cache has for it. */
  predicate Replaces(s: State, step: Step, dst: nat) {
    (step.Put? || step.Remove?) && step.t < |s.tasks| && s.tasks[step.t].dst == dst
  }

  lemma CachedStep(s: State, step: Step, m: nat)
    requires CacheOk(s) && Enabled(s, step) && m < |s.muxes|
    ensures m < |Do(s, step).muxes| && Do(s, step).muxes[m].dst == s.muxes[m].dst
    ensures Cached(Do(s, step), m) <==> Cached(s, m) && !Replaces(s, step, s.muxes[m].dst)
  {
    MuxesKept(s, step);
    ActiveKnown(s, step);
    if !step.Put? && !step.Remove? {
      ActiveKept(s, step);
    }
  }

  lemma ActiveKept(s: State, step: Step)
    requires Enabled(s, step) && !step.Put? && !step.Remove?
    ensures Do(s, step).active == s.active
  {
  }

  ghost predicate ReplacedAt(steps: seq<Step>, j: nat, dst: nat) {
    j < |steps| && Exec(steps[..j]).Some? && Replaces(Exec(steps[..j]).value, steps[j], dst)
  }

  /** Step `i` of the schedule published stream `m`. */
  ghost predicate PublishedAt(steps: seq<Step>, i: nat, m: nat) {
    && i < |steps| && steps[i].Put? && Exec(steps[..i]).Some? && Exec(steps[..i + 1]).Some?
    && |Exec(steps[..i]).value.muxes| == m && |Exec(steps[..i + 1]).value.muxes| == m + 1
  }

  /** After step `i` no goroutine with the destination has published or deleted. */
  ghost predicate Unreplaced(steps: seq<Step>, i: nat, dst: nat) {
    forall j :: i < j < |steps| ==> !ReplacedAt(steps, j, dst)
  }

  /**
   * A published stream is in the cache if and only if, since it was published, no goroutine with the
   * same destination has published another or deleted the entry, be it on account of an older stream.
   */
  lemma {:induction false} CachedUntil(steps: seq<Step>, m: nat) returns (i: nat)
    requires Exec(steps).Some? && m < |Exec(steps).value.muxes|
    ensures PublishedAt(steps, i, m)
    ensures Cached(Exec(steps).value, m) <==> Unreplaced(steps, i, Exec(steps).value.muxes[m].dst)
  {
    var n := |steps| - 1;
    var s := Exec(steps[..n]).value;
    if m < |s.muxes| {
      i := CachedUntil(steps[..n], m);
      TunnelSenderRuns.RunInv(steps[..n]);
      CachedStep(s, steps[n], m);
      PublishedSnoc(steps, i, m);
      UnreplacedSnoc(steps, i, s.muxes[m].dst);
    } else {
      i := n;
      OnlyPutPublishes(s, steps[n]);
      assert steps[..n + 1] == steps;
    }
  }

  lemma PublishedSnoc(steps: seq<Step>, i: nat, m: nat)
    requires steps != [] && PublishedAt(steps[..|steps| - 1], i, m)
    ensures PublishedAt(steps, i, m)
  {
    var front := steps[..|steps| - 1];
    assert front[..i] == steps[..i] && front[..i + 1] == steps[..i + 1];
  }

  lemma UnreplacedSnoc(steps: seq<Step>, i: nat, dst: nat)
    requires i < |steps| - 1 && Exec(steps).Some?
    ensures var n := |steps| - 1;
            Unreplaced(steps, i, dst) <==>
            Unreplaced(steps[..n], i, dst) && !Replaces(Exec(steps[..n]).value, steps[n], dst)
  {
    ReplacedLast(steps, dst);
    if Unreplaced(steps, i, dst) {
      UnreplacedFront(steps, i, dst);
    } else {
      var j :| i < j < |steps| && ReplacedAt(steps, j, dst);
      if j < |steps| - 1 {
        ReplacedFront(steps, j, dst);
      }
    }
  }

  lemma ReplacedLast(steps: seq<Step>, dst: nat)
    requires steps != [] && Exec(steps).Some?
    ensures var n := |steps| - 1;
            ReplacedAt(steps, n, dst) <==> Replaces(Exec(steps[..n]).value, steps[n], dst)
  {
  }

  lemma UnreplacedFront(steps: seq<Step>, i: nat, dst: nat)
    requires steps != [] && Unreplaced(steps, i, dst)
    ensures Unreplaced(steps[..|steps| - 1], i, dst)
  {
    var front := steps[..|steps| - 1];
    forall j | i < j < |front|
      ensures !ReplacedAt(front, j, dst)
    {
      ReplacedFront(steps, j, dst);
    }
  }

  lemma ReplacedFront(steps: seq<Step>, j: nat, dst: nat)
    requires j < |steps| - 1
    ensures ReplacedAt(steps[..|steps| - 1], j, dst) <==> ReplacedAt(steps, j, dst)
  {
    assert steps[..|steps| - 1][..j] == steps[..j];
  }

  lemma OnlyPutPublishes(s: State, step: Step)
    requires Enabled(s, step) && |Do(s, step).muxes| > |s.muxes|
    ensures step.Put? && |Do(s, step).muxes| == |s.muxes| + 1 && Cached(Do(s, step), |s.muxes|)
  {
  }

  /** Out of the cache, and no goroutine holds the lock or waits for it. */
  ghost predicate Orphan(s: State, m: nat) {
    && m < |s.muxes| && !Cached(s, m)
    && forall t :: 0 <= t < |s.tasks| ==> Held(s.tasks[t].pc) != Some(m) && s.tasks[t].pc != Wait(m)
  }

  lemma OrphanStep(s: State, step: Step, m: nat)
    requires Shape(s) && Orphan(s, m) && Enabled(s, step)
    ensures Orphan(Do(s, step), m) && Do(s, step).muxes[m].stream == s.muxes[m].stream < |s.streams|
    ensures |s.streams| <= |Do(s, step).streams|
    ensures Do(s, step).streams[s.muxes[m].stream] == s.streams[s.muxes[m].stream]
  {
    MuxesKept(s, step);
    if !step.Spawn? {
      NotOn(s, step.t, m);
    }
    StreamsElsewhere(s, step, s.muxes[m].stream);
    StaysOrphan(s, step, m);
  }

  lemma StaysOrphan(s: State, step: Step, m: nat)
    requires CacheOk(s) && Orphan(s, m) && Enabled(s, step)
    ensures Orphan(Do(s, step), m)
  {
    CachedStep(s, step, m);
    OthersKept(s, step);
    if !step.Spawn? {
      StillOff(s, step, m);
    }
  }

  lemma NotOn(s: State, t: nat, m: nat)
    requires Shape(s) && Orphan(s, m) && t < |s.tasks|
    ensures Target(s, t) != Some(s.muxes[m].stream)
  {
    var h := Held(s.tasks[t].pc);
    if h.Some? {
      assert h.value < |s.muxes| && h.value != m;
    }
  }

  lemma StillOff(s: State, step: Step, m: nat)
    requires CacheOk(s) && Orphan(s, m) && Enabled(s, step) && !step.Spawn? && step.t < |Do(s, step).tasks|
    ensures Held(Do(s, step).tasks[step.t].pc) != Some(m) && Do(s, step).tasks[step.t].pc != Wait(m)
  {
    if Do(s, step).tasks[step.t].pc.Wait? {
      WaitersKnown(s, step, step.t);
    }
    if step.Acquire? {
    } else if step.Release? || step.Put? {
    } else {
      HeldKept(s, step);
    }
  }

  /** Such a stream stays as it is for ever: nothing is written to it, and it is never closed. */
  lemma {:induction false} OrphanForever(steps: seq<Step>, more: seq<Step>, m: nat)
    requires Exec(steps).Some? && Exec(steps + more).Some? && Orphan(Exec(steps).value, m)
    ensures var s, s' := Exec(steps).value, Exec(steps + more).value;
            && Orphan(s', m) && s'.muxes[m].stream == s.muxes[m].stream < |s.streams| <= |s'.streams|
            && s'.streams[s.muxes[m].stream] == s.streams[s.muxes[m].stream]
  {
    TunnelSenderRuns.RunInv(steps);
    if more == [] {
      assert steps + more == steps;
    } else {
      var n := |more| - 1;
      var all := steps + more;
      assert all[..|all| - 1] == steps + more[..n];
      OrphanForever(steps, more[..n], m);
      TunnelSenderRuns.RunInv(steps + more[..n]);
      OrphanStep(Exec(steps + more[..n]).value, more[n], m);
    }
  }

  // A schedule that loses a stream

  /** Goroutine `t`, about to dial, sends an empty packet on a stream of its own and publishes it. */
  function SendFresh(t: nat): seq<Step> {
    [Dial(t, true), Arm(t, true), Accept(t, 2), WriteOk(t), WriteOk(t), Put(t)]
  }

  lemma One(past: seq<Step>, s: State, step: Step)
    requires Exec(past) == Some(s) && Enabled(s, step)
    ensures Exec(past + [step]) == Some(Do(s, step))
  {
    assert (past + [step])[..|past|] == past;
  }

  /** Since `s0`, goroutine `t` has dialled stream `st` and got to `pc`, and nothing else has happened. */
  ghost predicate Dialled(s0: State, s: State, t: nat, pc: Pc, st: Stream) {
    && t < |s0.tasks| == |s.tasks|
    && s.tasks[t].pc == pc && s.tasks[t].dst == s0.tasks[t].dst && s.tasks[t].packet == s0.tasks[t].packet == []
    && (forall u :: 0 <= u < |s.tasks| && u != t ==> s.tasks[u] == s0.tasks[u])
    && s.streams == s0.streams + [st] && s.muxes == s0.muxes && s.active == s0.active
  }

  lemma DialArm(past: seq<Step>, s0: State, t: nat) returns (s: State)
    requires Exec(past) == Some(s0) && t < |s0.tasks| && s0.tasks[t].pc.Open? && s0.tasks[t].packet == []
    ensures Exec(past + [Dial(t, true)] + [Arm(t, true)]) == Some(s)
    ensures Dialled(s0, s, t, Header(Fresh(|s0.streams|), 0), Stream([], false, None))
  {
    One(past, s0, Dial(t, true));
    var s1 := Do(s0, Dial(t, true));
    One(past + [Dial(t, true)], s1, Arm(t, true));
    s := Do(s1, Arm(t, true));
  }

  lemma AcceptAll(past: seq<Step>, s0: State, s: State, t: nat) returns (s': State)
    requires Exec(past) == Some(s) && Dialled(s0, s, t, Header(Fresh(|s0.streams|), 0), Stream([], false, None))
    ensures Exec(past + [Accept(t, 2)]) == Some(s')
    ensures Dialled(s0, s', t, Header(Fresh(|s0.streams|), 2), Stream(Frame([]), false, None))
  {
    One(past, s, Accept(t, 2));
    s' := Do(s, Accept(t, 2));
    assert [] + Frame([])[0..2] == Frame([]);
  }

  lemma WritesOk(past: seq<Step>, s0: State, s: State, t: nat) returns (s': State)
    requires Exec(past) == Some(s) && Dialled(s0, s, t, Header(Fresh(|s0.streams|), 2), Stream(Frame([]), false, None))
    ensures Exec(past + [WriteOk(t)] + [WriteOk(t)]) == Some(s')
    ensures Dialled(s0, s', t, Publish(|s0.streams|), Stream(Frame([]), false, None))
  {
    One(past, s, WriteOk(t));
    var s1 := Do(s, WriteOk(t));
    One(past + [WriteOk(t)], s1, WriteOk(t));
    s' := Do(s1, WriteOk(t));
  }

  /** What the schedule `SendFresh(t)` comes to. */
  ghost predicate SentFresh(s0: State, s: State, t: nat) {
    && t < |s0.tasks| == |s.tasks| && s.tasks[t].pc == Done(true)
    && (forall u :: 0 <= u < |s.tasks| && u != t ==> s.tasks[u] == s0.tasks[u])
    && s.streams == s0.streams + [Stream(Frame([]), false, None)]
    && s.muxes == s0.muxes + [Mux(s0.tasks[t].dst, |s0.streams|, None)]
    && s.active == s0.active[s0.tasks[t].dst := |s0.muxes|]
  }

  lemma Puts(past: seq<Step>, s0: State, s: State, t: nat) returns (s': State)
    requires Exec(past) == Some(s) && Dialled(s0, s, t, Publish(|s0.streams|), Stream(Frame([]), false, None))
    ensures Exec(past + [Put(t)]) == Some(s') && SentFresh(s0, s', t)
  {
    One(past, s, Put(t));
    s' := Do(s, Put(t));
  }

  lemma Sends(past: seq<Step>, s: State, t: nat) returns (s': State)
    requires Exec(past) == Some(s) && t < |s.tasks| && s.tasks[t].pc.Open? && s.tasks[t].packet == []
    ensures Exec(past + SendFresh(t)) == Some(s') && SentFresh(s, s', t)
  {
    var s1 := DialArm(past, s, t);
    var past1 := past + [Dial(t, true)] + [Arm(t, true)];
    var s2 := AcceptAll(past1, s, s1, t);
    var past2 := past1 + [Accept(t, 2)];
    var s3 := WritesOk(past2, s, s2, t);
    var past3 := past2 + [WriteOk(t)] + [WriteOk(t)];
    s' := Puts(past3, s, s3, t);
    assert past3 + [Put(t)] == past + SendFresh(t);
  }

  /** Two goroutines that have both found nothing in the cache. */
  function Starts(dst: nat): seq<Step> {
    [Spawn(dst, [])] + [Spawn(dst, [])] + [Look(0)] + [Look(1)]
  }

  /** Two tasks for `dst`, with empty packets, at these points of their programs, and nothing else. */
  function Two(dst: nat, pc0: Pc, pc1: Pc): State {
    State([Task(dst, [], pc0, Untried, Untried), Task(dst, [], pc1, Untried, Untried)], [], [], map[], [])
  }

  lemma BothSpawn(dst: nat)
    ensures Exec([Spawn(dst, [])] + [Spawn(dst, [])]) == Some(Two(dst, Lookup, Lookup))
  {
    One([], INIT, Spawn(dst, []));
    assert [] + [Spawn(dst, [])] == [Spawn(dst, [])];
    var s := Do(INIT, Spawn(dst, []));
    assert s.tasks == [Task(dst, [], Lookup, Untried, Untried)];
    One([Spawn(dst, [])], s, Spawn(dst, []));
    assert Do(s, Spawn(dst, [])).tasks == Two(dst, Lookup, Lookup).tasks;
  }

  lemma BothOpen(dst: nat)
    ensures Exec(Starts(dst)) == Some(Two(dst, Open, Open))
  {
    BothSpawn(dst);
    var past := [Spawn(dst, [])] + [Spawn(dst, [])];
    One(past, Two(dst, Lookup, Lookup), Look(0));
    assert Do(Two(dst, Lookup, Lookup), Look(0)).tasks == Two(dst, Open, Lookup).tasks;
    One(past + [Look(0)], Two(dst, Open, Lookup), Look(1));
    assert Do(Two(dst, Open, Lookup), Look(1)).tasks == Two(dst, Open, Open).tasks;
  }

  /**
   * Two packets for one destination that is not in the cache: both goroutines dial, and the second to
   * publish displaces the stream of the first, which stays open and unused for ever.
   */
  lemma DisplacedStream(dst: nat) returns (steps: seq<Step>)
    ensures Exec(steps).Some?
    ensures var s := Exec(steps).value;
            && |s.muxes| == 2 && |s.streams| == 2 && s.muxes[0].stream == 0
            && !s.streams[0].closed && Orphan(s, 0) && Cached(s, 1)
  {
    BothOpen(dst);
    var s1 := Sends(Starts(dst), Two(dst, Open, Open), 0);
    var s2 := Sends(Starts(dst) + SendFresh(0), s1, 1);
    steps := Starts(dst) + SendFresh(0) + SendFresh(1);
  }
}
