/**
 * The pipe between two byte streams: one reader goroutine for each, which copies what it read out of
 * its buffer and offers the copy on an unbuffered channel, and one select loop that writes what it
 * receives to the other side. The sides are called `false` and `true`.
 */
module Pipe {
  import opened Common

  const BUFFER: nat := 1024

  datatype Reader =
    | Reading
    | Filled(n: nat, err: bool)               // Read has returned, the copy is still to be made
    | Offering(res: seq<Byte>, err: bool)     // blocked in `c <- res`
    | OfferingEnd                             // blocked in `c <- nil`
    | Stopped

  /**
   * `taken` are all bytes read from the side, `accepted` all bytes it accepted; `cut` says that a
   * write to it was short. `taken` and `cut` are history. The pipe ignores the results of its writes.
   */
  datatype Side = Side(buf: seq<Byte>, reader: Reader, taken: seq<Byte>, accepted: seq<Byte>, cut: bool)

  datatype Main = Selecting | Writing(src: bool, msg: seq<Byte>) | Returned(side: bool)

  datatype State = State(left: Side, right: Side, main: Main)

  function Of(s: State, i: bool): Side {
    if i then s.right else s.left
  }

  function With(s: State, i: bool, side: Side): State {
    if i then s.(right := side) else s.(left := side)
  }

  predicate IsInit(s: State) {
    s.main.Selecting? && forall i :: Of(s, i) == Side(Of(s, i).buf, Reading, [], [], false) && |Of(s, i).buf| == BUFFER
  }

  datatype Step =
    | Read(i: bool, chunk: seq<Byte>, err: bool)
    | Copy(i: bool)
    | Receive(i: bool)
    | ReceiveEnd(i: bool)
    | Write(k: nat)

  predicate Enabled(s: State, step: Step) {
    match step
    case Read(i, chunk, _) => Of(s, i).reader.Reading? && |chunk| <= BUFFER
    case Copy(i) => Of(s, i).reader.Filled? && Of(s, i).reader.n <= |Of(s, i).buf|
    case Receive(i) => s.main.Selecting? && Of(s, i).reader.Offering?
    case ReceiveEnd(i) => s.main.Selecting? && Of(s, i).reader.OfferingEnd?
    case Write(k) => s.main.Writing? && k <= |s.main.msg|
  }

  function Do(s: State, step: Step): State
    requires Enabled(s, step)
  {
    match step
    case Read(i, chunk, err) =>
      var side := Of(s, i);
      var kept := if |chunk| <= |side.buf| then side.buf[|chunk|..] else [];
      With(s, i, side.(buf := chunk + kept, taken := side.taken + chunk, reader := Filled(|chunk|, err)))
    case Copy(i) =>
      var side := Of(s, i);
      var Filled(n, err) := side.reader;
      With(s, i, side.(reader :=
        if n > 0 then Offering(side.buf[..n], err) else if err then OfferingEnd else Reading))
    case Receive(i) =>
      var Offering(res, err) := Of(s, i).reader;
      With(s, i, Of(s, i).(reader := if err then OfferingEnd else Reading)).(main := Writing(i, res))
    case ReceiveEnd(i) =>
      With(s, i, Of(s, i).(reader := Stopped)).(main := Returned(i))
    case Write(k) =>
      var Writing(src, msg) := s.main;
      var dst := Of(s, !src);
      With(s, !src, dst.(accepted := dst.accepted + msg[..k], cut := dst.cut || k < |msg|)).(main := Selecting)
  }

  /** A side that has taken a write short takes nothing from later ones. */
  predicate FailStop(s: State, step: Step) {
    step.Write? && s.main.Writing? && Of(s, !s.main.src).cut ==> step.k == 0
  }

  function Exec(init: State, steps: seq<Step>): Option<State> {
    if steps == [] then Some(init)
    else
      match Exec(init, steps[..|steps| - 1])
      case None => None
      case Some(s) => if Enabled(s, steps[|steps| - 1]) then Some(Do(s, steps[|steps| - 1])) else None
  }

  ghost predicate FailStops(init: State, steps: seq<Step>) {
    steps == [] ||
    (FailStops(init, steps[..|steps| - 1]) &&
     (Exec(init, steps[..|steps| - 1]).Some? ==>
        FailStop(Exec(init, steps[..|steps| - 1]).value, steps[|steps| - 1])))
  }

  /** Bytes read from side `i` that the reader still holds. */
  function InReader(side: Side): seq<Byte> {
    match side.reader
    case Filled(n, _) => if n <= |side.buf| then side.buf[..n] else []
    case Offering(res, _) => res
    case _ => []
  }

  /** Bytes read from side `i` that the select loop holds. */
  function InMain(s: State, i: bool): seq<Byte> {
    if s.main.Writing? && s.main.src == i then s.main.msg else []
  }

  ghost predicate Flow(s: State, i: bool) {
    var src, dst := Of(s, i), Of(s, !i);
    && |src.buf| == BUFFER
    && (src.reader.Filled? ==> src.reader.n <= BUFFER)
    && (src.reader.Stopped? ==> s.main == Returned(i))
    && (s.main == Returned(i) ==> src.reader.Stopped?)
    && if dst.cut then dst.accepted <= src.taken
       else src.taken == dst.accepted + InMain(s, i) + InReader(src)
  }

  lemma FlowStep(s: State, step: Step, i: bool)
    requires Flow(s, false) && Flow(s, true) && Enabled(s, step) && FailStop(s, step)
    ensures Flow(Do(s, step), i)
  {
    match step {
      case Read(j, chunk, _) => FlowRead(s, step, i);
      case Copy(_) =>
      case Receive(_) => FlowReceive(s, step, i);
      case ReceiveEnd(_) =>
      case Write(_) => FlowWrite(s, step, i);
    }
  }

  lemma FlowRead(s: State, step: Step, i: bool)
    requires Flow(s, i) && Enabled(s, step) && step.Read?
    ensures Flow(Do(s, step), i)
  {
    if step.i == i {
      var side := Of(Do(s, step), i);
      assert side.buf[..|step.chunk|] == step.chunk;
      assert Of(s, i).taken <= side.taken;
    }
  }

  lemma FlowReceive(s: State, step: Step, i: bool)
    requires Flow(s, i) && Enabled(s, step) && step.Receive?
    ensures Flow(Do(s, step), i)
  {
    if step.i == i {
      var res := Of(s, i).reader.res;
      assert Of(s, !i).accepted + [] + res == Of(s, !i).accepted + res + [];
    }
  }

  lemma FlowWrite(s: State, step: Step, i: bool)
    requires Flow(s, i) && Enabled(s, step) && FailStop(s, step) && step.Write?
    ensures Flow(Do(s, step), i)
  {
    if s.main.src == i {
      TakePart(Of(s, !i).accepted, s.main.msg, InReader(Of(s, i)), step.k);
    }
  }

  lemma TakePart(was: seq<Byte>, msg: seq<Byte>, more: seq<Byte>, k: nat)
    requires k <= |msg|
    ensures was + msg[..k] <= was + msg + more
    ensures k == |msg| ==> was + msg[..k] + [] + more == was + msg + more
    ensures was + msg[..0] == was
  {
    assert was + msg[..k] == (was + msg + more)[..|was| + k];
  }

  /** Every schedule over fail-stop streams keeps both flows. */
  lemma {:induction false} RunFlow(init: State, steps: seq<Step>)
    requires IsInit(init) && Exec(init, steps).Some? && FailStops(init, steps)
    ensures Flow(Exec(init, steps).value, false) && Flow(Exec(init, steps).value, true)
  {
    if steps == [] {
      assert Of(init, false) == Side(Of(init, false).buf, Reading, [], [], false);
      assert Of(init, true) == Side(Of(init, true).buf, Reading, [], [], false);
    } else {
      RunFlow(init, steps[..|steps| - 1]);
      var s := Exec(init, steps[..|steps| - 1]).value;
      FlowStep(s, steps[|steps| - 1], false);
      FlowStep(s, steps[|steps| - 1], true);
    }
  }

  // Streams that go on after a short write

  /** `at` are the places, in order, where the elements of `a` stand in `b`. */
  ghost predicate Places(at: seq<nat>, a: seq<Byte>, b: seq<Byte>) {
    && |at| == |a| && (forall i :: 0 <= i < |a| ==> at[i] < |b| && b[at[i]] == a[i])
    && forall i, j :: 0 <= i < j < |a| ==> at[i] < at[j]
  }

  /** `a` is `b` with some elements left out. */
  ghost predicate Subsequence(a: seq<Byte>, b: seq<Byte>) {
    exists at: seq<nat> :: Places(at, a, b)
  }

  lemma LeavesOut(u: seq<Byte>, v: seq<Byte>, w: seq<Byte>, b: seq<Byte>)
    requires Subsequence(u + v + w, b)
    ensures Subsequence(u + w, b)
  {
    var at: seq<nat> :| Places(at, u + v + w, b);
    var at' := at[..|u|] + at[|u + v|..];
    forall i | 0 <= i < |u + w|
      ensures at'[i] < |b| && b[at'[i]] == (u + w)[i]
    {
      assert (u + w)[i] == (u + v + w)[if i < |u| then i else i + |v|];
    }
    assert Places(at', u + w, b);
  }

  lemma BothGrow(a: seq<Byte>, b: seq<Byte>, more: seq<Byte>)
    requires Subsequence(a, b)
    ensures Subsequence(a + more, b + more)
  {
    var at: seq<nat> :| Places(at, a, b);
    assert Places(at + seq(|more|, k requires 0 <= k < |more| => |b| + k), a + more, b + more);
  }

  /** What side `!i` has accepted, and after it what the loop and the reader of side `i` hold. */
  function Onward(s: State, i: bool): seq<Byte> {
    Of(s, !i).accepted + InMain(s, i) + InReader(Of(s, i))
  }

  ghost predicate InOrder(s: State, i: bool) {
    && |Of(s, i).buf| == BUFFER && (Of(s, i).reader.Filled? ==> Of(s, i).reader.n <= BUFFER)
    && Subsequence(Onward(s, i), Of(s, i).taken)
  }

  lemma InOrderStep(s: State, step: Step, i: bool)
    requires InOrder(s, i) && Enabled(s, step)
    ensures InOrder(Do(s, step), i)
  {
    var s' := Do(s, step);
    match step {
      case Read(j, chunk, _) =>
        if j == i {
          assert Of(s', i).buf[..|chunk|] == chunk;
          assert Onward(s, i) + chunk == Onward(s', i);
          BothGrow(Onward(s, i), Of(s, i).taken, chunk);
        } else {
          assert Onward(s', i) == Onward(s, i);
        }
      case Write(k) => WriteLeavesOut(s, k, i);
      case _ => assert Onward(s', i) == Onward(s, i);
    }
  }

  lemma WriteLeavesOut(s: State, k: nat, i: bool)
    requires InOrder(s, i) && Enabled(s, Write(k))
    ensures InOrder(Do(s, Write(k)), i)
  {
    var s' := Do(s, Write(k));
    if s.main.src == i {
      var was, msg, rest := Of(s, !i).accepted, s.main.msg, InReader(Of(s, i));
      assert was + msg + rest == (was + msg[..k]) + msg[k..] + rest;
      LeavesOut(was + msg[..k], msg[k..], rest, Of(s, i).taken);
      assert Onward(s', i) == was + msg[..k] + rest;
    } else {
      assert Onward(s', i) == Onward(s, i);
    }
  }

  /**
   * Whatever the streams do after a short write, in every schedule what one side has accepted is what
   * was read from the other with some bytes left out: never another order, a doubled or a stale byte.
   */
  lemma {:induction false} RunInOrder(init: State, steps: seq<Step>, i: bool)
    requires IsInit(init) && Exec(init, steps).Some?
    ensures InOrder(Exec(init, steps).value, i)
    ensures Subsequence(Of(Exec(init, steps).value, !i).accepted, Of(Exec(init, steps).value, i).taken)
  {
    var s := Exec(init, steps).value;
    if steps == [] {
      assert Of(init, i) == Side(Of(init, i).buf, Reading, [], [], false);
      assert Of(init, !i) == Side(Of(init, !i).buf, Reading, [], [], false);
      assert Places([], Onward(s, i), Of(s, i).taken);
    } else {
      RunInOrder(init, steps[..|steps| - 1], i);
      InOrderStep(Exec(init, steps[..|steps| - 1]).value, steps[|steps| - 1], i);
    }
    var was, held := Of(s, !i).accepted, InMain(s, i) + InReader(Of(s, i));
    assert was + held + [] == Onward(s, i) && was + [] == was;
    LeavesOut(was, held, [], Of(s, i).taken);
  }

  /**
   * At every moment of every schedule, what one side has accepted is what was read from the other with
   * some bytes left out. Over fail-stop streams it is the beginning of what was read; and when the pipe
   * has returned on the end of a side, it is all of it unless a write had failed.
   */
  lemma Delivered(init: State, steps: seq<Step>, i: bool)
    requires IsInit(init) && Exec(init, steps).Some?
    ensures var s := Exec(init, steps).value;
            && Subsequence(Of(s, !i).accepted, Of(s, i).taken)
            && (FailStops(init, steps) ==>
                  && Of(s, !i).accepted <= Of(s, i).taken
                  && (s.main == Returned(i) && !Of(s, !i).cut ==> Of(s, !i).accepted == Of(s, i).taken))
  {
    RunInOrder(init, steps, i);
    if FailStops(init, steps) {
      RunFlow(init, steps);
      assert Flow(Exec(init, steps).value, i);
    }
  }

  // What the history is, and when the pipe returns

  /** All bytes handed out by the reads of one side. */
  function Reads(steps: seq<Step>, i: bool): seq<Byte> {
    if steps == [] then []
    else
      var last := steps[|steps| - 1];
      Reads(steps[..|steps| - 1], i) + if last.Read? && last.i == i then last.chunk else []
  }

  /** The last read of one side failed. */
  function LastFailed(steps: seq<Step>, i: bool): bool {
    if steps == [] then false
    else
      var last := steps[|steps| - 1];
      if last.Read? && last.i == i then last.err else LastFailed(steps[..|steps| - 1], i)
  }

  /** The end marker of one side was received. */
  function EndReceived(steps: seq<Step>, i: bool): bool {
    if steps == [] then false
    else
      var last := steps[|steps| - 1];
      (last.ReceiveEnd? && last.i == i) || EndReceived(steps[..|steps| - 1], i)
  }

  /** A reader goes on until a read fails, and then offers the end marker after what that read brought. */
  predicate ReaderOk(reader: Reader, failed: bool) {
    match reader
    case Reading => !failed
    case Filled(_, err) => err == failed
    case Offering(_, err) => err == failed
    case OfferingEnd => failed
    case Stopped => failed
  }

  ghost predicate SideOk(s: State, steps: seq<Step>, i: bool) {
    && Of(s, i).taken == Reads(steps, i)
    && ReaderOk(Of(s, i).reader, LastFailed(steps, i))
    && (Of(s, i).reader.Stopped? <==> EndReceived(steps, i))
    && (s.main == Returned(i) <==> EndReceived(steps, i))
  }

  lemma SideStep(s: State, steps: seq<Step>, step: Step, i: bool)
    requires SideOk(s, steps, i) && Enabled(s, step)
    ensures SideOk(Do(s, step), steps + [step], i)
  {
    assert (steps + [step])[..|steps|] == steps;
  }

  /**
   * The reader of a side stops exactly when its end marker has been received, which follows a failed
   * read; and that is when the pipe returns.
   */
  lemma {:induction false} ReturnsAtEnd(init: State, steps: seq<Step>, i: bool)
    requires IsInit(init) && Exec(init, steps).Some?
    ensures SideOk(Exec(init, steps).value, steps, i)
    ensures Exec(init, steps).value.main == Returned(i) ==> LastFailed(steps, i)
  {
    if steps == [] {
      assert Of(init, i) == Side(Of(init, i).buf, Reading, [], [], false);
    } else {
      var n := |steps| - 1;
      ReturnsAtEnd(init, steps[..n], i);
      assert steps[..n] + [steps[n]] == steps;
      SideStep(Exec(init, steps[..n]).value, steps[..n], steps[n], i);
    }
  }

  /** Some write to a side was short. */
  ghost predicate ShortWrite(init: State, steps: seq<Step>, i: bool) {
    exists j :: 0 <= j < |steps| && ShortAt(init, steps, j, i)
  }

  ghost predicate ShortAt(init: State, steps: seq<Step>, j: nat, i: bool) {
    && j < |steps| && steps[j].Write? && Exec(init, steps[..j]).Some? && Exec(init, steps[..j]).value.main.Writing?
    && Exec(init, steps[..j]).value.main.src != i && steps[j].k < |Exec(init, steps[..j]).value.main.msg|
  }

  /** A side is cut exactly when a write to it was short. */
  lemma {:induction false} CutByShortWrite(init: State, steps: seq<Step>, i: bool)
    requires IsInit(init) && Exec(init, steps).Some?
    ensures Of(Exec(init, steps).value, i).cut <==> ShortWrite(init, steps, i)
  {
    if steps == [] {
      assert Of(init, i) == Side(Of(init, i).buf, Reading, [], [], false);
    } else {
      var n := |steps| - 1;
      CutByShortWrite(init, steps[..n], i);
      ShortSnoc(init, steps, i);
    }
  }

  lemma ShortSnoc(init: State, steps: seq<Step>, i: bool)
    requires steps != []
    ensures ShortWrite(init, steps, i) <==>
            ShortWrite(init, steps[..|steps| - 1], i) || ShortAt(init, steps, |steps| - 1, i)
  {
    var n := |steps| - 1;
    var front := steps[..n];
    forall j | 0 <= j < n
      ensures ShortAt(init, front, j, i) <==> ShortAt(init, steps, j, i)
    {
      assert front[..j] == steps[..j];
    }
    if ShortWrite(init, front, i) {
      var j :| 0 <= j < |front| && ShortAt(init, front, j, i);
      assert ShortAt(init, steps, j, i);
    }
  }

  function Round(x: Byte, k: nat): seq<Step> {
    [Read(false, [x], false), Copy(false), Receive(false), Write(k)]
  }

  /** The pipe goes on writing after a write that failed: a stream that recovers misses bytes. */
  lemma RecoveringStreamMissesBytes(init: State)
    requires IsInit(init)
    ensures var steps := Round(1, 0) + Round(2, 1);
            && Exec(init, steps).Some?
            && Of(Exec(init, steps).value, true).accepted == [2]
            && Of(Exec(init, steps).value, false).taken == [1, 2]
            && !FailStops(init, steps)
  {
    assert Of(init, false) == Side(Of(init, false).buf, Reading, [], [], false);
    assert Of(init, true) == Side(Of(init, true).buf, Reading, [], [], false);
    var s := OneRound(init, [], init, 1, 0);
    assert [] + Round(1, 0) == Round(1, 0);
    var s' := OneRound(init, Round(1, 0), s, 2, 1);
  }

  /** A byte read from the left and offered to the right, which accepts `k` bytes. */
  lemma OneRound(init: State, past: seq<Step>, s: State, x: Byte, k: nat) returns (s': State)
    requires Exec(init, past) == Some(s) && k <= 1
    requires s.main.Selecting? && s.left.reader.Reading? && |s.left.buf| == BUFFER
    ensures Exec(init, past + Round(x, k)) == Some(s')
    ensures s'.main.Selecting? && s'.left.reader.Reading? && |s'.left.buf| == BUFFER
    ensures s'.left.taken == s.left.taken + [x] && s'.right.accepted == s.right.accepted + [x][..k]
    ensures s'.right.cut == (s.right.cut || k == 0)
    ensures FailStops(init, past + Round(x, k)) && s.right.cut ==> k == 0
  {
    var s1 := Extend(init, past, s, Read(false, [x], false));
    assert s1.left.buf[..1] == [x];
    var past1 := past + [Read(false, [x], false)];
    var s2 := Extend(init, past1, s1, Copy(false));
    var past2 := past1 + [Copy(false)];
    var s3 := Extend(init, past2, s2, Receive(false));
    var past3 := past2 + [Receive(false)];
    s' := Extend(init, past3, s3, Write(k));
    assert past3 + [Write(k)] == past + Round(x, k);
  }

  lemma Extend(init: State, past: seq<Step>, s: State, step: Step) returns (s': State)
    requires Exec(init, past) == Some(s) && Enabled(s, step)
    ensures s' == Do(s, step) && Exec(init, past + [step]) == Some(s')
    ensures FailStops(init, past + [step]) ==> FailStop(s, step)
  {
    s' := Do(s, step);
    assert (past + [step])[..|past|] == past;
  }
}
