/** Sharing a deadline among the addresses of a host, as `DialContext` does. Times are nanoseconds. */
module Dialer {
  import opened Common

  const SANE_MINIMUM: int := 2_000_000_000

  /** The deadline of the next attempt, or nothing when the time is over. */
  function PartialDeadline(now: int, deadline: int, addrsRemaining: nat): Option<int>
    requires addrsRemaining > 0
  {
    var timeRemaining := deadline - now;
    if timeRemaining <= 0 then None
    else
      var timeout := timeRemaining / addrsRemaining;
      if timeout >= SANE_MINIMUM then Some(now + timeout)
      else if timeRemaining < SANE_MINIMUM then Some(now + timeRemaining)
      else Some(now + SANE_MINIMUM)
  }

  datatype Err = Timeout | Canceled | MissingAddress | Dial(code: nat)

  /**
   * What happens around one attempt: the clock when its deadline is computed, the error of a context
   * that was done just before, and the error of the dial itself.
   */
  datatype Attempt = Attempt(now: int, ctxErr: Option<Err>, dialErr: Option<Err>)

  datatype Outcome = Connected(index: nat) | Failed(err: Err)

  predicate TimeIsOver(attempts: seq<Attempt>, deadline: Option<int>, i: nat)
    requires i < |attempts|
  {
    deadline.Some? && PartialDeadline(attempts[i].now, deadline.value, |attempts| - i).None?
  }

  /** The loop ends at address `i`. */
  predicate EndsAt(attempts: seq<Attempt>, deadline: Option<int>, i: nat)
    requires i < |attempts|
  {
    attempts[i].ctxErr.Some? || TimeIsOver(attempts, deadline, i) || attempts[i].dialErr.None?
  }

  /** The error of the first attempt, when there was one. */
  function FirstErr(attempts: seq<Attempt>, tried: nat, default: Err): Err {
    if 0 < tried <= |attempts| && attempts[0].dialErr.Some? then attempts[0].dialErr.value else default
  }

  /**
   * Dials the addresses in order until one answers. `tried` addresses failed before the loop ended;
   * `slots` are the deadlines the dials were given. A loop that ends without a connection and without
   * being cancelled returns the error of the first dial, if there was one.
   */
  method DialAddrs(attempts: seq<Attempt>, deadline: Option<int>)
    returns (outcome: Outcome, tried: nat, slots: seq<int>)
    ensures tried <= |attempts|
    ensures forall i :: 0 <= i < tried ==> !EndsAt(attempts, deadline, i)
    ensures tried < |attempts| ==> EndsAt(attempts, deadline, tried)
    ensures outcome ==
            if tried == |attempts| then Failed(FirstErr(attempts, tried, MissingAddress))
            else if attempts[tried].ctxErr.Some? then Failed(attempts[tried].ctxErr.value)
            else if TimeIsOver(attempts, deadline, tried) then Failed(FirstErr(attempts, tried, Timeout))
            else Connected(tried)
    ensures outcome.Failed? && (tried == |attempts| || attempts[tried].ctxErr.None?) ==>
              if tried > 0 then attempts[0].dialErr == Some(outcome.err)
              else outcome.err == if attempts == [] then MissingAddress else Timeout
    ensures |slots| == if outcome.Connected? then tried + 1 else tried
    ensures deadline.Some? ==> forall i :: 0 <= i < |slots| ==>
              PartialDeadline(attempts[i].now, deadline.value, |attempts| - i) == Some(slots[i])
  {
    var firstErr: Option<Err> := None;
    slots := [];
    tried := 0;
    while tried < |attempts|
      invariant tried <= |attempts| && |slots| == tried
      invariant forall i :: 0 <= i < tried ==> !EndsAt(attempts, deadline, i)
      invariant firstErr == if tried == 0 then None else attempts[0].dialErr
      invariant deadline.Some? ==> forall i :: 0 <= i < tried ==>
                  PartialDeadline(attempts[i].now, deadline.value, |attempts| - i) == Some(slots[i])
    {
      var a := attempts[tried];
      assert tried > 0 ==> !EndsAt(attempts, deadline, 0);
      if a.ctxErr.Some? {
        return Failed(a.ctxErr.value), tried, slots;
      }
      var slot := 0;
      if deadline.Some? {
        var partial := PartialDeadline(a.now, deadline.value, |attempts| - tried);
        if partial.None? {
          if firstErr.None? {
            firstErr := Some(Timeout);
          }
          break;
        }
        slot := partial.value;
      }
      if a.dialErr.None? {
        return Connected(tried), tried, slots + [slot];
      }
      slots := slots + [slot];
      if firstErr.None? {
        firstErr := a.dialErr;
      }
      tried := tried + 1;
    }
    assert tried > 0 ==> !EndsAt(attempts, deadline, 0);
    if firstErr.None? {
      firstErr := Some(MissingAddress);
    }
    outcome := Failed(firstErr.value);
  }

  function Max(a: int, b: int): int {
    if a < b then b else a
  }

  /** An attempt gets its share, or two seconds if that is more, and never more than what is left. */
  lemma Slot(now: int, deadline: int, n: nat)
    requires n > 0
    ensures PartialDeadline(now, deadline, n).None? <==> deadline <= now
    ensures now < deadline ==>
              var left := deadline - now;
              var t := PartialDeadline(now, deadline, n).value;
              && now < t <= deadline
              && t - now == Max(left / n, if left < SANE_MINIMUM then left else SANE_MINIMUM)
  {
    if now < deadline {
      DivBounds(deadline - now, n);
    }
  }

  lemma MulMono(m: nat, x: int, y: int)
    requires x <= y
    ensures m * x <= m * y
  {
  }

  lemma DivBounds(a: int, n: nat)
    requires a > 0 && n > 0
    ensures 0 <= a / n <= a && n * (a / n) <= a < n * (a / n) + n
  {
    var q := a / n;
    assert a == n * q + a % n;
    if q < 0 {
      MulMono(n, q, -1);
    } else {
      MulMono(q, 1, n);
    }
  }

  /** One share taken from at least `m` quotas leaves at least `m - 1`. */
  lemma ShareStep(left: int, m: nat, quota: int)
    requires m > 0 && quota > 0 && left >= m * quota && left > 0
    ensures left / m >= quota
    ensures left - left / m >= (m - 1) * quota
  {
    var share := left / m;
    DivBounds(left, m);
    if share < quota {
      MulMono(m, share + 1, quota);
    }
    MulMono(m - 1, quota, share);
  }

  /** The run of clock readings when every attempt ends within its slot and the next starts at once. */
  ghost predicate Punctual(nows: seq<int>, deadline: int) {
    forall i :: 0 <= i < |nows| - 1 ==>
      PartialDeadline(nows[i], deadline, |nows| - i).Some? &&
      nows[i + 1] <= PartialDeadline(nows[i], deadline, |nows| - i).value
  }

  /**
   * When the fair share of every address is at least two seconds and attempts keep to their slots,
   * every address gets at least the whole seconds, down to the nanosecond, of its fair share.
   */
  lemma {:induction false} FairShares(nows: seq<int>, deadline: int, i: nat)
    requires 0 <= i < |nows| && Punctual(nows, deadline)
    requires (deadline - nows[0]) / |nows| >= SANE_MINIMUM
    ensures var quota := (deadline - nows[0]) / |nows|;
            && deadline - nows[i] >= (|nows| - i) * quota
            && PartialDeadline(nows[i], deadline, |nows| - i).Some?
            && PartialDeadline(nows[i], deadline, |nows| - i).value - nows[i] >= quota
            && PartialDeadline(nows[i], deadline, |nows| - i).value <= deadline
    decreases i
  {
    var quota := (deadline - nows[0]) / |nows|;
    if i == 0 {
      Quotas(deadline - nows[0], |nows|);
    } else {
      FairShares(nows, deadline, i - 1);
      ShareStep(deadline - nows[i - 1], |nows| - (i - 1), quota);
      Slot(nows[i - 1], deadline, |nows| - (i - 1));
    }
    ShareStep(deadline - nows[i], |nows| - i, quota);
    Slot(nows[i], deadline, |nows| - i);
  }

  lemma Quotas(total: int, n: nat)
    requires n > 0 && total / n >= SANE_MINIMUM
    ensures total >= n * (total / n) && total > 0
  {
    var q := total / n;
    assert total == n * q + total % n;
    MulMono(n, 1, q);
  }

  /** So with punctual attempts `DialAddrs` never gives up for lack of time. */
  lemma PunctualNeverOver(attempts: seq<Attempt>, deadline: int, i: nat)
    requires i < |attempts|
    requires Punctual(seq(|attempts|, j requires 0 <= j < |attempts| => attempts[j].now), deadline)
    requires (deadline - attempts[0].now) / |attempts| >= SANE_MINIMUM
    ensures !TimeIsOver(attempts, Some(deadline), i)
  {
    FairShares(seq(|attempts|, j requires 0 <= j < |attempts| => attempts[j].now), deadline, i);
  }

  // When the fair share is less than two seconds

  /** The clock readings of the first attempts at `n` addresses, each within the slot of the one before. */
  ghost predicate PunctualFirst(nows: seq<int>, n: nat, deadline: int) {
    && 0 < |nows| <= n
    && forall i :: 0 <= i < |nows| - 1 ==>
         PartialDeadline(nows[i], deadline, n - i).Some? &&
         nows[i + 1] <= PartialDeadline(nows[i], deadline, n - i).value
  }

  /** The attempts before the last one have used up their slots. */
  ghost predicate UsedUp(nows: seq<int>, n: nat, deadline: int)
    requires PunctualFirst(nows, n, deadline)
  {
    forall i :: 0 <= i < |nows| - 1 ==> nows[i + 1] == PartialDeadline(nows[i], deadline, n - i).value
  }

  /** Two seconds, or what is left if that is less. */
  function Minimum(left: int): int {
    if left < SANE_MINIMUM then left else SANE_MINIMUM
  }

  /** One slot leaves what two seconds would have left, if there was less than that for each address. */
  lemma SmallSlot(left: int, m: nat, rest: int)
    requires m > 0 && left > 0 && rest < m * SANE_MINIMUM && left >= rest
    ensures left - Max(left / m, Minimum(left)) >= rest - SANE_MINIMUM
    ensures left < m * SANE_MINIMUM ==> Max(left / m, Minimum(left)) == Minimum(left)
  {
    var share := left / m;
    DivBounds(left, m);
    if share > SANE_MINIMUM {
      MulMono(m - 1, SANE_MINIMUM, share);
    }
    if left < m * SANE_MINIMUM && share >= SANE_MINIMUM {
      MulMono(m, SANE_MINIMUM, share);
    }
  }

  /** What is left at reading `i`: no less than if every attempt had taken two seconds. */
  lemma {:induction false} SmallShareLeft(nows: seq<int>, n: nat, deadline: int, i: nat)
    requires PunctualFirst(nows, n, deadline) && deadline - nows[0] < n * SANE_MINIMUM && i < |nows|
    ensures deadline - nows[i] >= deadline - nows[0] - i * SANE_MINIMUM
    ensures UsedUp(nows, n, deadline) && deadline - nows[0] > 0 ==>
              deadline - nows[i] == Max(0, deadline - nows[0] - i * SANE_MINIMUM)
  {
    if i > 0 {
      SmallShareLeft(nows, n, deadline, i - 1);
      var rest := deadline - nows[0] - (i - 1) * SANE_MINIMUM;
      NextLeft(nows[i - 1], nows[i], deadline, n - (i - 1), rest);
    }
  }

  lemma NextLeft(now: int, next: int, deadline: int, m: nat, rest: int)
    requires m > 0 && PartialDeadline(now, deadline, m).Some? && next <= PartialDeadline(now, deadline, m).value
    requires rest < m * SANE_MINIMUM && deadline - now >= rest
    ensures deadline - next >= rest - SANE_MINIMUM
    ensures deadline - now == rest && next == PartialDeadline(now, deadline, m).value ==>
              deadline - next == Max(0, rest - SANE_MINIMUM)
  {
    Slot(now, deadline, m);
    SmallSlot(deadline - now, m, rest);
  }

  /**
   * When the fair share is less than two seconds, the first addresses take two seconds each: the address
   * `i` gets a slot, of two seconds or of what is left of the whole after `2i` seconds, if anything is.
   * When the attempts use up their slots, it gets one only then.
   */
  lemma SmallShares(nows: seq<int>, n: nat, deadline: int)
    requires PunctualFirst(nows, n, deadline) && deadline - nows[0] < n * SANE_MINIMUM
    ensures var i, total := |nows| - 1, deadline - nows[0];
            && (i * SANE_MINIMUM < total ==>
                  && PartialDeadline(nows[i], deadline, n - i).Some?
                  && PartialDeadline(nows[i], deadline, n - i).value - nows[i] >= Minimum(total - i * SANE_MINIMUM))
            && (UsedUp(nows, n, deadline) ==>
                  (PartialDeadline(nows[i], deadline, n - i).Some? <==> i * SANE_MINIMUM < total))
  {
    var i := |nows| - 1;
    SmallShareLeft(nows, n, deadline, i);
    Slot(nows[i], deadline, n - i);
    if i > 0 {
      assert PartialDeadline(nows[0], deadline, n).Some?;
    }
  }

  /** Three addresses in three seconds, each dialled to the end of its slot: the third gets none. */
  lemma ThirdGetsNothing()
    ensures var nows := [0, 2_000_000_000, 3_000_000_000];
            && PunctualFirst(nows, 3, 3_000_000_000) && UsedUp(nows, 3, 3_000_000_000)
            && PartialDeadline(nows[2], 3_000_000_000, 1).None?
  {
  }
}
