/**
 * Name lookups over several DNS servers. An exchange with a server is an oracle; a message is its
 * header and the records of its answer section, read through a cursor.
 */
module Resolver {
  import opened Common
  import opened DomainName

  /** A record: its type and address, and whether its header and its body can be parsed. */
  datatype Rec = Rec(rtype: nat, addr: nat, headerOk: bool, bodyOk: bool)

  const TYPE_A: nat := 1
  const TYPE_AAAA: nat := 28

  datatype RCode = Success | NameError | ServerFailure | OtherCode

  datatype Header = Header(rcode: RCode, authoritative: bool, recursionAvailable: bool)

  datatype Err =
    | NoSuchHost | LameReferral | CannotUnmarshal | CannotMarshal | Misbehaving | TemporarilyMisbehaving
    | Exchange(code: nat)

  /** `server` is the server that was asked, if one was. */
  datatype DnsError = DnsError(
    err: Err, server: Option<nat>, isTimeout: bool, isTemporary: bool, isNotFound: bool)

  datatype Reply =
    | NoReply(code: nat, timeout: bool, opError: bool)
    | Reply(header: Header, answers: seq<Rec>)

  // One answer section

  datatype Cursor = At(i: nat) | NoneThere | Malformed

  function Skip(answers: seq<Rec>, i: nat, qtype: nat): Cursor
    requires i <= |answers|
    decreases |answers| - i
  {
    if i == |answers| then NoneThere
    else if !answers[i].headerOk then Malformed
    else if answers[i].rtype == qtype then At(i)
    else if !answers[i].bodyOk then Malformed
    else Skip(answers, i + 1, qtype)
  }

  method SkipToAnswer(answers: seq<Rec>, qtype: nat) returns (c: Cursor)
    ensures c == Skip(answers, 0, qtype)
  {
    var i := 0;
    while true
      invariant i <= |answers| && Skip(answers, 0, qtype) == Skip(answers, i, qtype)
      decreases |answers| - i
    {
      if i == |answers| {
        return NoneThere;
      }
      if !answers[i].headerOk {
        return Malformed;
      }
      if answers[i].rtype == qtype {
        return At(i);
      }
      if !answers[i].bodyOk {
        return Malformed;
      }
      i := i + 1;
    }
  }

  /** The record can be skipped: it parses and is of another type. */
  predicate Passed(r: Rec, qtype: nat) {
    r.headerOk && r.bodyOk && r.rtype != qtype
  }

  /**
   * The cursor stops at the first record of the wanted type, and the host is reported missing exactly
   * when the section is well formed and has no such record.
   */
  lemma {:induction false} SkipIs(answers: seq<Rec>, i: nat, qtype: nat)
    requires i <= |answers|
    ensures forall k: nat :: Skip(answers, i, qtype) == At(k) <==>
              i <= k < |answers| && answers[k].headerOk && answers[k].rtype == qtype
              && forall j :: i <= j < k ==> Passed(answers[j], qtype)
    ensures Skip(answers, i, qtype) == NoneThere <==> forall j :: i <= j < |answers| ==> Passed(answers[j], qtype)
    decreases |answers| - i
  {
    if i < |answers| {
      if Passed(answers[i], qtype) {
        SkipIs(answers, i + 1, qtype);
      } else {
        assert !Passed(answers[i], qtype);
      }
    }
  }

  // One exchange

  function CheckHeader(h: Header, answers: seq<Rec>): Option<Err> {
    if h.rcode.NameError? then Some(NoSuchHost)
    else if answers != [] && !answers[0].headerOk then Some(CannotUnmarshal)
    else if h.rcode.Success? && !h.authoritative && !h.recursionAvailable && answers == [] then Some(LameReferral)
    else if h.rcode.ServerFailure? then Some(TemporarilyMisbehaving)
    else if !h.rcode.Success? then Some(Misbehaving)
    else None
  }

  /** An attempt is conclusive when it found an answer or learned that there is none. */
  datatype Verdict = Answer(i: nat, answers: seq<Rec>) | Missing(e: DnsError) | Retry(e: DnsError)

  function Judge(reply: Reply, server: nat, qtype: nat): Verdict {
    match reply
    case NoReply(code, timeout, opError) => Retry(DnsError(Exchange(code), Some(server), timeout, opError, false))
    case Reply(h, answers) =>
      match CheckHeader(h, answers)
      case Some(NoSuchHost) => Missing(DnsError(NoSuchHost, Some(server), false, false, true))
      case Some(e) => Retry(DnsError(e, Some(server), false, e.TemporarilyMisbehaving?, false))
      case None =>
        match Skip(answers, 0, qtype)
        case At(i) => Answer(i, answers)
        case NoneThere => Missing(DnsError(NoSuchHost, Some(server), false, false, true))
        case Malformed => Retry(DnsError(CannotUnmarshal, Some(server), false, false, false))
  }

  /** The section has a record of the type that can be reached. */
  ghost predicate Reachable(answers: seq<Rec>, k: nat, qtype: nat) {
    && k < |answers| && answers[k].headerOk && answers[k].rtype == qtype
    && forall j :: 0 <= j < k ==> Passed(answers[j], qtype)
  }

  /**
   * When one exchange settles a lookup: it found a record of the type in a successful reply; or the
   * reply says that there is no such name, or is a successful and well-formed one without such a
   * record, unless it is an empty reply of a server with neither authority nor recursion.
   */
  lemma VerdictIs(reply: Reply, server: nat, qtype: nat)
    ensures var v := Judge(reply, server, qtype);
            && (v.Answer? <==>
                  reply.Reply? && reply.header.rcode.Success? && exists k: nat :: Reachable(reply.answers, k, qtype))
            && (v.Answer? ==> Reachable(reply.answers, v.i, qtype) && v.answers == reply.answers)
            && (v.Missing? <==>
                  reply.Reply? &&
                  (reply.header.rcode.NameError? ||
                   (reply.header.rcode.Success?
                    && (reply.header.authoritative || reply.header.recursionAvailable || reply.answers != [])
                    && forall j :: 0 <= j < |reply.answers| ==> Passed(reply.answers[j], qtype))))
            && (v.Missing? ==> v.e == DnsError(NoSuchHost, Some(server), false, false, true))
            && (v.Retry? ==> !v.e.isNotFound && v.e.server == Some(server))
  {
    if reply.Reply? {
      SkipIs(reply.answers, 0, qtype);
      var c := Skip(reply.answers, 0, qtype);
      if c.At? {
        assert Reachable(reply.answers, c.i, qtype);
      }
      if exists k: nat :: Reachable(reply.answers, k, qtype) {
        var k: nat :| Reachable(reply.answers, k, qtype);
        assert c == At(k);
        if k > 0 {
          assert Passed(reply.answers[0], qtype);
        }
      }
    }
  }

  /**
   * Why an exchange settles nothing: no reply; an answer section that cannot be read, at its beginning or
   * on the way to the record; an empty reply without authority or recursion; or a server in trouble.
   */
  lemma RetryIs(reply: Reply, server: nat, qtype: nat)
    requires Judge(reply, server, qtype).Retry?
    ensures var e := Judge(reply, server, qtype).e;
            match reply
            case NoReply(code, timeout, opError) => e == DnsError(Exchange(code), Some(server), timeout, opError, false)
            case Reply(h, answers) =>
              !h.rcode.NameError? && !e.isTimeout && !e.isNotFound && e.server == Some(server)
              && (e.isTemporary <==> e.err.TemporarilyMisbehaving?)
              && (if answers != [] && !answers[0].headerOk then e.err == CannotUnmarshal
                  else match h.rcode
                       case ServerFailure => e.err == TemporarilyMisbehaving
                       case OtherCode => e.err == Misbehaving
                       case _ => e.err == if answers == [] then LameReferral else CannotUnmarshal)
  {
    if reply.Reply? {
      SkipIs(reply.answers, 0, qtype);
    }
  }

  // Two rounds over the servers

  type Exchanges = (nat, nat) -> Reply

  /** `Unanswered(None)` is a nil error: there was no server to ask. */
  datatype Outcome =
    | BadName
    | Answered(server: nat, i: nat, answers: seq<Rec>)
    | NotFound(e: DnsError)
    | Unanswered(last: Option<DnsError>)

  /** The verdict of the `k`-th of the exchanges that two rounds over `n` servers make. */
  function Nth(exchange: Exchanges, n: nat, qtype: nat, k: nat): Verdict
    requires k < 2 * n
  {
    if k < n then Judge(exchange(0, k), k, qtype) else Judge(exchange(1, k - n), k - n, qtype)
  }

  /** The exchanges go round the servers in order, twice. */
  lemma NthIs(exchange: Exchanges, n: nat, qtype: nat, round: nat, server: nat)
    requires round < 2 && server < n
    ensures round * n + server < 2 * n
    ensures Nth(exchange, n, qtype, round * n + server) == Judge(exchange(round, server), server, qtype)
  {
    RoundOf(round, n, server);
  }

  /** What the lookup reports when exchange `k` is the last it makes. */
  function Concluding(v: Verdict, server: nat): Outcome {
    match v
    case Answer(i, answers) => Answered(server, i, answers)
    case Missing(e) => NotFound(e)
    case Retry(e) => Unanswered(Some(e))
  }

  /**
   * The result is that of the first conclusive exchange, in two rounds over the servers in order, or
   * else the error of the last exchange; `asked` exchanges are made, never more than two a server.
   */
  method TryOneName(nameOk: bool, n: nat, exchange: Exchanges, qtype: nat) returns (out: Outcome, asked: nat)
    ensures !nameOk ==> out == BadName && asked == 0
    ensures nameOk ==> asked <= 2 * n && (asked == 0 <==> n == 0)
    ensures nameOk && n == 0 ==> out == Unanswered(None)
    ensures nameOk && n > 0 ==>
              && (forall k :: 0 <= k < asked - 1 ==> Nth(exchange, n, qtype, k).Retry?)
              && (asked < 2 * n ==> !Nth(exchange, n, qtype, asked - 1).Retry?)
              && out == Concluding(Nth(exchange, n, qtype, asked - 1), (asked - 1) % n)
  {
    asked := 0;
    if !nameOk {
      return BadName, 0;
    }
    var lastErr: Option<DnsError> := None;
    for round := 0 to 2
      invariant asked == round * n
      invariant forall k :: 0 <= k < asked ==> Nth(exchange, n, qtype, k).Retry?
      invariant lastErr == if asked == 0 then None else Some(Nth(exchange, n, qtype, asked - 1).e)
    {
      for server := 0 to n
        invariant asked == round * n + server
        invariant forall k :: 0 <= k < asked ==> Nth(exchange, n, qtype, k).Retry?
        invariant lastErr == if asked == 0 then None else Some(Nth(exchange, n, qtype, asked - 1).e)
      {
        RoundOf(round, n, server);
        var reply := exchange(round, server);
        ghost var v := Nth(exchange, n, qtype, asked);
        assert v == Judge(reply, server, qtype);
        asked := asked + 1;
        if reply.NoReply? {
          lastErr := Some(DnsError(Exchange(reply.code), Some(server), reply.timeout, reply.opError, false));
          continue;
        }
        var bad := CheckHeader(reply.header, reply.answers);
        if bad.Some? {
          var e := DnsError(bad.value, Some(server), false, bad.value.TemporarilyMisbehaving?, bad.value.NoSuchHost?);
          if bad.value.NoSuchHost? {
            return NotFound(e), asked;
          }
          lastErr := Some(e);
          continue;
        }
        var c := SkipToAnswer(reply.answers, qtype);
        match c {
          case At(i) => return Answered(server, i, reply.answers), asked;
          case NoneThere => return NotFound(DnsError(NoSuchHost, Some(server), false, false, true)), asked;
          case Malformed => lastErr := Some(DnsError(CannotUnmarshal, Some(server), false, false, false));
        }
      }
    }
    if n > 0 {
      RoundOf(1, n, n - 1);
    }
    out := Unanswered(lastErr);
  }

  lemma RoundOf(round: nat, n: nat, server: nat)
    requires round < 2 && server < n
    ensures round * n + server < 2 * n && (round * n + server) % n == server
    ensures (round == 0 <==> round * n + server < n)
  {
    if round == 1 {
      assert (n + server) % n == server;
    }
  }

  // Two lookups at once

  /** What one lane delivers: an error, the section its parser stands in, or a parser that was never started. */
  datatype Lane = Err(e: DnsError) | Records(server: nat, answers: seq<Rec>, i: nat) | Unstarted

  datatype Addrs = Addrs(v4: seq<nat>, v6: seq<nat>)

  /** The addresses of the records from `i` on, up to the first that cannot be parsed. */
  function Collected(answers: seq<Rec>, i: nat): Addrs
    decreases |answers| - i
  {
    if i >= |answers| || !Parses(answers[i]) then Addrs([], [])
    else
      var rest := Collected(answers, i + 1);
      if answers[i].rtype == TYPE_A then rest.(v4 := [answers[i].addr] + rest.v4)
      else if answers[i].rtype == TYPE_AAAA then rest.(v6 := [answers[i].addr] + rest.v6)
      else rest
  }

  /** How many of the records from `lo` to `hi` are of a type. */
  function CountOf(answers: seq<Rec>, lo: nat, hi: nat, rtype: nat): nat
    requires lo <= hi <= |answers|
  {
    if lo == hi then 0
    else CountOf(answers, lo, hi - 1, rtype) + if answers[hi - 1].rtype == rtype then 1 else 0
  }

  /** The place of the first record from `i` on that cannot be parsed, or the end. */
  function EndOf(answers: seq<Rec>, i: nat): (e: nat)
    requires i <= |answers|
    ensures i <= e <= |answers| && (forall j :: i <= j < e ==> Parses(answers[j]))
    ensures e < |answers| ==> !Parses(answers[e])
    decreases |answers| - i
  {
    if i == |answers| || !Parses(answers[i]) then i else EndOf(answers, i + 1)
  }

  /** `addrs` are the addresses of the records of one type from `lo` to `hi`, in their order. */
  ghost predicate AddrsAre(addrs: seq<nat>, answers: seq<Rec>, lo: nat, hi: nat, rtype: nat)
    requires lo <= hi <= |answers|
  {
    && |addrs| == CountOf(answers, lo, hi, rtype)
    && forall j :: lo <= j < hi && answers[j].rtype == rtype ==>
         CountOf(answers, lo, j, rtype) < |addrs| && addrs[CountOf(answers, lo, j, rtype)] == answers[j].addr
  }

  lemma {:induction false} CountFirst(answers: seq<Rec>, lo: nat, hi: nat, rtype: nat)
    requires lo < hi <= |answers|
    ensures CountOf(answers, lo, hi, rtype) ==
            (if answers[lo].rtype == rtype then 1 else 0) + CountOf(answers, lo + 1, hi, rtype)
    decreases hi
  {
    if lo + 1 < hi {
      CountFirst(answers, lo, hi - 1, rtype);
    } else {
      assert CountOf(answers, lo, lo, rtype) == 0;
    }
  }

  /** One more record in front. */
  lemma AddrsBefore(addrs: seq<nat>, answers: seq<Rec>, lo: nat, hi: nat, rtype: nat)
    requires lo < hi <= |answers| && AddrsAre(addrs, answers, lo + 1, hi, rtype)
    ensures AddrsAre(if answers[lo].rtype == rtype then [answers[lo].addr] + addrs else addrs, answers, lo, hi, rtype)
  {
    CountFirst(answers, lo, hi, rtype);
    forall j | lo < j < hi && answers[j].rtype == rtype
      ensures CountOf(answers, lo, j, rtype) ==
              (if answers[lo].rtype == rtype then 1 else 0) + CountOf(answers, lo + 1, j, rtype)
      ensures CountOf(answers, lo + 1, j, rtype) < |addrs|
    {
      CountFirst(answers, lo, j, rtype);
    }
    assert CountOf(answers, lo, lo, rtype) == 0;
  }

  /** A section brings the addresses of its A and AAAA records up to the first that cannot be parsed, in order. */
  lemma {:induction false} CollectedIs(answers: seq<Rec>, i: nat)
    requires i <= |answers|
    ensures AddrsAre(Collected(answers, i).v4, answers, i, EndOf(answers, i), TYPE_A)
    ensures AddrsAre(Collected(answers, i).v6, answers, i, EndOf(answers, i), TYPE_AAAA)
    decreases |answers| - i
  {
    if i < EndOf(answers, i) {
      CollectedIs(answers, i + 1);
      AddrsBefore(Collected(answers, i + 1).v4, answers, i, EndOf(answers, i), TYPE_A);
      AddrsBefore(Collected(answers, i + 1).v6, answers, i, EndOf(answers, i), TYPE_AAAA);
    } else {
      assert CountOf(answers, i, i, TYPE_A) == CountOf(answers, i, i, TYPE_AAAA) == 0;
    }
  }

  function OfLane(lane: Lane): Addrs {
    match lane
    case Records(_, answers, i) => Collected(answers, i)
    case _ => Addrs([], [])
  }

  function Merged(lanes: seq<Lane>): Addrs {
    if lanes == [] then Addrs([], [])
    else
      var front, last := Merged(lanes[..|lanes| - 1]), OfLane(lanes[|lanes| - 1]);
      Addrs(front.v4 + last.v4, front.v6 + last.v6)
  }

  function Listed(a: Addrs, hasV6: bool): seq<nat> {
    if hasV6 then a.v6 + a.v4 else a.v4 + a.v6
  }

  /** IPv6 addresses come first exactly when an IPv6 address is enabled. */
  lemma ListedIs(a: Addrs)
    ensures Listed(a, true)[..|a.v6|] == a.v6 && Listed(a, true)[|a.v6|..] == a.v4
    ensures Listed(a, false)[..|a.v4|] == a.v4 && Listed(a, false)[|a.v4|..] == a.v6
  {
  }

  predicate Broken(answers: seq<Rec>, first: nat) {
    exists j :: first <= j < |answers| && !Parses(answers[j])
  }

  /** The error of an answer that cannot be read; a parser that was never started comes from no server. */
  function Unreadable(server: Option<nat>): DnsError {
    DnsError(CannotMarshal, server, false, false, false)
  }

  /** The error that a lane leaves behind. */
  function ErrOf(lane: Lane): Option<DnsError> {
    match lane
    case Err(e) => Some(e)
    case Records(server, answers, i) => if Broken(answers, i) then Some(Unreadable(Some(server))) else None
    case Unstarted => Some(Unreadable(None))
  }

  /** The first error of a lane is kept, but an answer that cannot be read overwrites what was there. */
  function LastErr(lanes: seq<Lane>): Option<DnsError> {
    if lanes == [] then None
    else
      var front, lane := LastErr(lanes[..|lanes| - 1]), lanes[|lanes| - 1];
      if lane.Err? then (if front.Some? then front else Some(lane.e))
      else if ErrOf(lane).Some? then ErrOf(lane)
      else front
  }

  predicate Parses(r: Rec) {
    r.headerOk && r.bodyOk
  }

  /** The inner loop: appends the addresses of one section, up to a record that cannot be parsed. */
  method ReadSection(answers: seq<Rec>, first: nat, was4: seq<nat>, was6: seq<nat>)
    returns (v4: seq<nat>, v6: seq<nat>, bad: bool)
    ensures v4 == was4 + Collected(answers, first).v4 && v6 == was6 + Collected(answers, first).v6
    ensures bad <==> Broken(answers, first)
  {
    v4, v6, bad := was4, was6, false;
    var i := first;
    while i < |answers|
      invariant first <= i && !bad
      invariant was4 + Collected(answers, first).v4 == v4 + Collected(answers, i).v4
      invariant was6 + Collected(answers, first).v6 == v6 + Collected(answers, i).v6
      invariant forall j :: first <= j < i && j < |answers| ==> Parses(answers[j])
    {
      if !answers[i].headerOk || !answers[i].bodyOk {
        assert !Parses(answers[i]);
        bad := true;
        break;
      }
      if answers[i].rtype == TYPE_A {
        v4 := v4 + [answers[i].addr];
      } else if answers[i].rtype == TYPE_AAAA {
        v6 := v6 + [answers[i].addr];
      }
      i := i + 1;
    }
  }

  /** Merges the lanes in the order in which they answer; the addresses of a broken lane still count. */
  method MergeLanes(lanes: seq<Lane>, hasV6: bool) returns (addrs: seq<nat>, err: Option<DnsError>)
    ensures addrs == Listed(Merged(lanes), hasV6)
    ensures err == if addrs == [] then LastErr(lanes) else None
  {
    var v4, v6: seq<nat> := [], [];
    var lastErr: Option<DnsError> := None;
    for l := 0 to |lanes|
      invariant Addrs(v4, v6) == Merged(lanes[..l])
      invariant lastErr == LastErr(lanes[..l])
    {
      assert lanes[..l + 1][..l] == lanes[..l];
      match lanes[l] {
        case Err(e) =>
          if lastErr.None? {
            lastErr := Some(e);
          }
        case Unstarted => lastErr := Some(Unreadable(None)); // the first AnswerHeader fails
        case Records(server, answers, i) =>
          var bad;
          v4, v6, bad := ReadSection(answers, i, v4, v6);
          if bad {
            lastErr := Some(Unreadable(Some(server)));
          }
      }
    }
    assert lanes[..|lanes|] == lanes;
    addrs := if hasV6 then v6 + v4 else v4 + v6;
    err := if addrs == [] then lastErr else None;
  }

  lemma MergedTwo(a: Lane, b: Lane)
    ensures Merged([a, b]) == Addrs(OfLane(a).v4 + OfLane(b).v4, OfLane(a).v6 + OfLane(b).v6)
  {
    assert [a, b][..1] == [a] && [a][..0] == [];
    var x := OfLane(a);
    assert [] + x.v4 == x.v4 && [] + x.v6 == x.v6;
    assert Merged([a]) == x;
  }

  /** Of two lanes, an unreadable one decides over one that failed; of two of a kind, the order decides. */
  lemma LastErrTwo(a: Lane, b: Lane)
    ensures LastErr([a, b]) ==
            if b.Err? && ErrOf(a).Some? then ErrOf(a)
            else if ErrOf(b).Some? then ErrOf(b)
            else ErrOf(a)
  {
    assert [a, b][..1] == [a] && [a][..0] == [];
    assert LastErr([a]) == ErrOf(a);
  }

  /**
   * What the order in which two lanes answer can change. Never the addresses, unless both lanes bring
   * some of one family; never whether there are any; and the error exactly when both lanes failed with
   * different ones, or both cannot be read and come from different servers.
   */
  lemma ArrivalOrder(a: Lane, b: Lane)
    ensures (OfLane(a).v4 == [] || OfLane(b).v4 == []) && (OfLane(a).v6 == [] || OfLane(b).v6 == []) ==>
              Merged([a, b]) == Merged([b, a])
    ensures forall hasV6 :: Listed(Merged([a, b]), hasV6) == [] <==> Listed(Merged([b, a]), hasV6) == []
    ensures LastErr([a, b]) != LastErr([b, a]) <==>
              a.Err? == b.Err? && ErrOf(a).Some? && ErrOf(b).Some? && ErrOf(a) != ErrOf(b)
  {
    MergedTwo(a, b);
    MergedTwo(b, a);
    var x, y := OfLane(a), OfLane(b);
    forall hasV6
      ensures Listed(Merged([a, b]), hasV6) == [] <==> Listed(Merged([b, a]), hasV6) == []
    {
      assert |Listed(Merged([a, b]), hasV6)| == |Listed(Merged([b, a]), hasV6)|;
    }
    assert [] + x.v4 == x.v4 == x.v4 + [] && [] + x.v6 == x.v6 == x.v6 + [];
    assert [] + y.v4 == y.v4 == y.v4 + [] && [] + y.v6 == y.v6 == y.v6 + [];
    LastErrTwo(a, b);
    LastErrTwo(b, a);
  }

  // Looking up a host

  /** A name that does not fit a message has an error without a server; no domain name is that long. */
  function LaneOf(out: Outcome): Lane {
    match out
    case BadName => Err(Unreadable(None))
    case Answered(server, i, answers) => Records(server, answers, i)
    case NotFound(e) => Err(e)
    case Unanswered(Some(e)) => Err(e)
    case Unanswered(None) => Unstarted // a nil error, so the empty parser is used
  }

  /** The lane brings an address or leaves an error behind. */
  predicate Useful(lane: Lane) {
    OfLane(lane).v4 != [] || OfLane(lane).v6 != [] || ErrOf(lane).Some?
  }

  /** What a lookup ends in stands at a record of the type that was asked for. */
  lemma ConcludedUseful(reply: Reply, server: nat, qtype: nat)
    requires qtype == TYPE_A || qtype == TYPE_AAAA
    ensures Useful(LaneOf(Concluding(Judge(reply, server, qtype), server)))
  {
    if reply.Reply? {
      SkipIs(reply.answers, 0, qtype);
      match Judge(reply, server, qtype) {
        case Answer(i, answers) =>
          assert Skip(answers, 0, qtype) == At(i);
          assert Parses(answers[i]) || Broken(answers, i);
        case _ =>
      }
    }
  }

  /** The longest name that a DNS message can hold. */
  const NAME_LEN: nat := 255

  /** What the exchanges from the `k`-th on come to. */
  function Settled(exchange: Exchanges, n: nat, qtype: nat, k: nat): Outcome
    requires k < 2 * n
    decreases 2 * n - k
  {
    if Nth(exchange, n, qtype, k).Retry? && k + 1 < 2 * n then Settled(exchange, n, qtype, k + 1)
    else Concluding(Nth(exchange, n, qtype, k), k % n)
  }

  /** What `n` servers make of one record type. */
  function LaneFor(exchange: Exchanges, n: nat, qtype: nat): Lane {
    if n == 0 then Unstarted else LaneOf(Settled(exchange, n, qtype, 0))
  }

  lemma {:induction false} SettledIs(exchange: Exchanges, n: nat, qtype: nat, k: nat, last: nat)
    requires k <= last < 2 * n
    requires forall j :: k <= j < last ==> Nth(exchange, n, qtype, j).Retry?
    requires last + 1 < 2 * n ==> !Nth(exchange, n, qtype, last).Retry?
    ensures Settled(exchange, n, qtype, k) == Concluding(Nth(exchange, n, qtype, last), last % n)
    decreases last - k
  {
    if k < last {
      SettledIs(exchange, n, qtype, k + 1, last);
    }
  }

  lemma {:induction false} SettledUseful(exchange: Exchanges, n: nat, qtype: nat, k: nat)
    requires k < 2 * n && (qtype == TYPE_A || qtype == TYPE_AAAA)
    ensures Useful(LaneOf(Settled(exchange, n, qtype, k)))
    decreases 2 * n - k
  {
    if Nth(exchange, n, qtype, k).Retry? && k + 1 < 2 * n {
      SettledUseful(exchange, n, qtype, k + 1);
    } else {
      var round, server := if k < n then 0 else 1, if k < n then k else k - n;
      ConcludedUseful(exchange(round, server), server, qtype);
    }
  }

  /** One lane: looks one record type up. */
  method LookupLane(host: string, n: nat, exchange: Exchanges, qtype: nat) returns (lane: Lane)
    requires |host| < NAME_LEN
    ensures lane == LaneFor(exchange, n, qtype)
  {
    var out, asked := TryOneName(|host| + 1 <= NAME_LEN, n, exchange, qtype);
    lane := LaneOf(out);
    if n > 0 {
      SettledIs(exchange, n, qtype, 0, asked - 1);
    }
  }

  /** The lanes of the enabled families, in the order in which they answer. */
  function Lanes(hasV4: bool, hasV6: bool, n: nat, exchange4: Exchanges, exchange6: Exchanges, late4: bool): seq<Lane> {
    var lane4 := if hasV4 then [LaneFor(exchange4, n, TYPE_A)] else [];
    var lane6 := if hasV6 then [LaneFor(exchange6, n, TYPE_AAAA)] else [];
    if late4 then lane6 + lane4 else lane4 + lane6
  }

  datatype Lookup = Found(addrs: seq<nat>) | Failed(e: DnsError)

  /** The error for a host that is no name, or that cannot be looked up in any family. */
  function NoSuchName(): DnsError {
    DnsError(NoSuchHost, None, false, false, true)
  }

  /** A host that is given up before any server is asked. */
  predicate NotAsked(host: string, literal: Option<nat>, isName: bool, lanes: seq<Lane>) {
    host == "" || lanes == [] || (literal.None? && !isName)
  }

  /** The literal address; no such host for a name that is none; or what the lanes bring, else their error. */
  function LookupOf(host: string, literal: Option<nat>, isName: bool, lanes: seq<Lane>, hasV6: bool): Lookup {
    if NotAsked(host, literal, isName, lanes) then Failed(NoSuchName())
    else if literal.Some? then Found([literal.value])
    else
      var addrs := Listed(Merged(lanes), hasV6);
      if addrs == [] && LastErr(lanes).Some? then Failed(LastErr(lanes).value) else Found(addrs)
  }

  /**
   * Looks a host up: `literal` is the address that the host spells out, if it does; `exchange4` and
   * `exchange6` answer the two lanes; `late4` says that the IPv4 lane answers last. The code fails only
   * when it has noticed an error, and still never succeeds without an address.
   */
  method LookupContextHost(host: string, literal: Option<nat>, hasV4: bool, hasV6: bool, n: nat,
                           exchange4: Exchanges, exchange6: Exchanges, late4: bool)
    returns (out: Lookup)
    ensures out == LookupOf(host, literal, Grammar(host),
                            Lanes(hasV4, hasV6, n, exchange4, exchange6, late4), hasV6)
    ensures out.Found? ==> out.addrs != []
    ensures n == 0 && literal.None? ==> !out.Found?
  {
    if host == "" || (!hasV6 && !hasV4) {
      return Failed(NoSuchName());
    }
    if literal.Some? {
      return Found([literal.value]);
    }
    var ok := IsDomainName(host);
    if !ok {
      return Failed(NoSuchName());
    }
    var lanes: seq<Lane> := [];
    if hasV4 {
      var lane := LookupLane(host, n, exchange4, TYPE_A);
      lanes := [lane];
    }
    if hasV6 {
      var lane := LookupLane(host, n, exchange6, TYPE_AAAA);
      lanes := if late4 then [lane] + lanes else lanes + [lane];
    }
    assert lanes == Lanes(hasV4, hasV6, n, exchange4, exchange6, late4);
    var addrs, err := MergeLanes(lanes, hasV6);
    LanesUseful(hasV4, hasV6, n, exchange4, exchange6, late4);
    NothingUnnoticed(lanes, hasV6);
    return if err.Some? then Failed(err.value) else Found(addrs);
  }

  lemma LanesUseful(hasV4: bool, hasV6: bool, n: nat, exchange4: Exchanges, exchange6: Exchanges, late4: bool)
    ensures var lanes := Lanes(hasV4, hasV6, n, exchange4, exchange6, late4);
            && (forall k :: 0 <= k < |lanes| ==> Useful(lanes[k]))
            && (n == 0 ==> AllUnstarted(lanes))
  {
    if n > 0 {
      SettledUseful(exchange4, n, TYPE_A, 0);
      SettledUseful(exchange6, n, TYPE_AAAA, 0);
    }
  }

  predicate AllUnstarted(lanes: seq<Lane>) {
    forall k :: 0 <= k < |lanes| ==> lanes[k] == Unstarted
  }

  predicate AllFailed(lanes: seq<Lane>) {
    forall k :: 0 <= k < |lanes| ==> lanes[k].Err?
  }

  /** Lanes that bring no address leave an error behind, and lanes that never started bring none. */
  lemma NothingUnnoticed(lanes: seq<Lane>, hasV6: bool)
    requires lanes != [] && forall k :: 0 <= k < |lanes| ==> Useful(lanes[k])
    ensures Listed(Merged(lanes), hasV6) == [] ==> LastErr(lanes).Some?
    ensures AllUnstarted(lanes) ==> Listed(Merged(lanes), hasV6) == []
  {
    if Listed(Merged(lanes), hasV6) == [] {
      NoneBrings(lanes);
      assert ErrOf(lanes[|lanes| - 1]).Some?;
    }
    if AllUnstarted(lanes) {
      NothingFrom(lanes);
    }
  }

  lemma {:induction false} NothingFrom(lanes: seq<Lane>)
    requires forall k :: 0 <= k < |lanes| ==> !lanes[k].Records?
    ensures Merged(lanes) == Addrs([], [])
  {
    if lanes != [] {
      NothingFrom(lanes[..|lanes| - 1]);
    }
  }

  lemma {:induction false} NoneBrings(lanes: seq<Lane>)
    requires Merged(lanes).v4 == [] && Merged(lanes).v6 == []
    ensures forall k :: 0 <= k < |lanes| ==> OfLane(lanes[k]) == Addrs([], [])
  {
    if lanes != [] {
      NoneBrings(lanes[..|lanes| - 1]);
    }
  }

  // Which error it is

  /** Lane `k` is the last that did not fail. */
  predicate LastUnfailed(lanes: seq<Lane>, k: nat) {
    k < |lanes| && !lanes[k].Err? && forall j :: k < j < |lanes| ==> lanes[j].Err?
  }

  lemma {:induction false} LastUnfailedExists(lanes: seq<Lane>) returns (k: nat)
    requires !AllFailed(lanes)
    ensures LastUnfailed(lanes, k)
  {
    k := |lanes| - 1;
    if lanes[k].Err? {
      k := LastUnfailedExists(lanes[..k]);
    }
  }

  /** When all lanes failed, the error is that of the first. */
  lemma {:induction false} FirstErrLasts(lanes: seq<Lane>)
    requires lanes != [] && AllFailed(lanes)
    ensures LastErr(lanes) == Some(lanes[0].e)
  {
    if |lanes| > 1 {
      FirstErrLasts(lanes[..|lanes| - 1]);
    }
  }

  /** Otherwise it is that of the last that did not fail, if that one cannot be read. */
  lemma {:induction false} UnreadableDecides(lanes: seq<Lane>, k: nat)
    requires LastUnfailed(lanes, k) && ErrOf(lanes[k]).Some?
    ensures LastErr(lanes) == ErrOf(lanes[k])
  {
    var n := |lanes| - 1;
    if k < n {
      UnreadableDecides(lanes[..n], k);
    }
  }

  /** Exchange `k` is the first that is conclusive. */
  ghost predicate FirstConclusive(exchange: Exchanges, n: nat, qtype: nat, k: nat) {
    k < 2 * n && !Nth(exchange, n, qtype, k).Retry? && forall j :: 0 <= j < k ==> Nth(exchange, n, qtype, j).Retry?
  }

  /** A lane reports the host as missing exactly when its first conclusive exchange says so. */
  lemma LaneMissing(exchange: Exchanges, n: nat, qtype: nat)
    ensures var lane := LaneFor(exchange, n, qtype);
            && (lane.Err? && lane.e.isNotFound <==>
                  exists k: nat :: FirstConclusive(exchange, n, qtype, k) && Nth(exchange, n, qtype, k).Missing?)
            && (lane.Records? <==>
                  exists k: nat :: FirstConclusive(exchange, n, qtype, k) && Nth(exchange, n, qtype, k).Answer?)
            && (forall k: nat :: FirstConclusive(exchange, n, qtype, k) && Nth(exchange, n, qtype, k).Answer? ==>
                  lane == Records(k % n, Nth(exchange, n, qtype, k).answers, Nth(exchange, n, qtype, k).i))
            && (lane.Unstarted? <==> n == 0)
            && (lane.Err? ==> (lane.e.err.NoSuchHost? <==> lane.e.isNotFound))
  {
    if n > 0 {
      var k := SettledAt(exchange, n, qtype, 0);
      assert Nth(exchange, n, qtype, k).Retry? || FirstConclusive(exchange, n, qtype, k);
    }
  }

  /** Where the exchanges from `k` on settle: at the first conclusive one, or at the last. */
  lemma {:induction false} SettledAt(exchange: Exchanges, n: nat, qtype: nat, k: nat) returns (last: nat)
    requires k < 2 * n
    ensures k <= last < 2 * n && Settled(exchange, n, qtype, k) == Concluding(Nth(exchange, n, qtype, last), last % n)
    ensures forall j :: k <= j < last ==> Nth(exchange, n, qtype, j).Retry?
    ensures last + 1 < 2 * n ==> !Nth(exchange, n, qtype, last).Retry?
    decreases 2 * n - k
  {
    last := k;
    if Nth(exchange, n, qtype, k).Retry? && k + 1 < 2 * n {
      last := SettledAt(exchange, n, qtype, k + 1);
    }
  }

  /**
   * When a lookup reports that there is no such host: when it is given up before any server is asked;
   * or when all its lanes have failed, and the one that answered first had learned from a server, in
   * its first conclusive exchange, that there is none. One lane that cannot be read hides it.
   */
  lemma ReportedMissing(host: string, literal: Option<nat>, hasV4: bool, hasV6: bool, n: nat,
                        exchange4: Exchanges, exchange6: Exchanges, late4: bool)
    ensures var lanes := Lanes(hasV4, hasV6, n, exchange4, exchange6, late4);
            var out := LookupOf(host, literal, Grammar(host), lanes, hasV6);
            out.Failed? && out.e.isNotFound <==>
              || NotAsked(host, literal, Grammar(host), lanes)
              || (literal.None? && AllFailed(lanes) && lanes[0].e.isNotFound)
  {
    LanesUseful(hasV4, hasV6, n, exchange4, exchange6, late4);
    MissingFrom(host, literal, Grammar(host), Lanes(hasV4, hasV6, n, exchange4, exchange6, late4), hasV6);
  }

  lemma MissingFrom(host: string, literal: Option<nat>, isName: bool, lanes: seq<Lane>, hasV6: bool)
    requires forall k :: 0 <= k < |lanes| ==> Useful(lanes[k])
    ensures var out := LookupOf(host, literal, isName, lanes, hasV6);
            out.Failed? && out.e.isNotFound <==>
              || NotAsked(host, literal, isName, lanes)
              || (literal.None? && AllFailed(lanes) && lanes[0].e.isNotFound)
  {
    if lanes != [] {
      MissingIs(lanes, hasV6);
    }
  }

  /** When a lookup succeeds, and with which addresses. */
  lemma FoundExactly(host: string, literal: Option<nat>, hasV4: bool, hasV6: bool, n: nat,
                     exchange4: Exchanges, exchange6: Exchanges, late4: bool)
    ensures var lanes := Lanes(hasV4, hasV6, n, exchange4, exchange6, late4);
            var out := LookupOf(host, literal, Grammar(host), lanes, hasV6);
            && (out.Found? <==>
                  host != "" && lanes != [] &&
                  (literal.Some? || (Grammar(host) && Listed(Merged(lanes), hasV6) != [])))
            && (out.Found? ==>
                  out.addrs == if literal.Some? then [literal.value] else Listed(Merged(lanes), hasV6))
  {
    LanesUseful(hasV4, hasV6, n, exchange4, exchange6, late4);
    FoundFrom(host, literal, Grammar(host), Lanes(hasV4, hasV6, n, exchange4, exchange6, late4), hasV6);
  }

  lemma FoundFrom(host: string, literal: Option<nat>, isName: bool, lanes: seq<Lane>, hasV6: bool)
    requires forall k :: 0 <= k < |lanes| ==> Useful(lanes[k])
    ensures var out := LookupOf(host, literal, isName, lanes, hasV6);
            && (out.Found? <==>
                  host != "" && lanes != [] && (literal.Some? || (isName && Listed(Merged(lanes), hasV6) != [])))
            && (out.Found? ==>
                  out.addrs == if literal.Some? then [literal.value] else Listed(Merged(lanes), hasV6))
  {
    if lanes != [] {
      NothingUnnoticed(lanes, hasV6);
    }
  }

  lemma MissingIs(lanes: seq<Lane>, hasV6: bool)
    requires lanes != [] && forall k :: 0 <= k < |lanes| ==> Useful(lanes[k])
    ensures Listed(Merged(lanes), hasV6) == [] && LastErr(lanes).Some? && LastErr(lanes).value.isNotFound <==>
              AllFailed(lanes) && lanes[0].e.isNotFound
  {
    if AllFailed(lanes) {
      NothingFrom(lanes);
      FirstErrLasts(lanes);
    } else if Listed(Merged(lanes), hasV6) == [] {
      NoneBrings(lanes);
      var k := LastUnfailedExists(lanes);
      UnreadableDecides(lanes, k);
    }
  }

  lemma NoSuchNameLane(exchange: Exchanges, authoritative: bool)
    requires exchange(0, 0) == Reply(Header(NameError, authoritative, true), [])
    ensures LaneFor(exchange, 1, TYPE_A) == Err(DnsError(NoSuchHost, Some(0), false, false, true))
  {
  }

  lemma TimedOutLane(exchange: Exchanges)
    requires exchange(0, 0) == exchange(1, 0) == NoReply(0, true, true)
    ensures LaneFor(exchange, 1, TYPE_AAAA) == Err(DnsError(Exchange(0), Some(0), true, true, false))
  {
    assert Nth(exchange, 1, TYPE_AAAA, 0).Retry?;
  }

  /** One server that knows no such name: the host is reported missing. */
  lemma UnknownName(host: string, exchange4: Exchanges, exchange6: Exchanges, late4: bool, authoritative: bool)
    requires Grammar(host)
    requires exchange4(0, 0) == Reply(Header(NameError, authoritative, true), [])
    ensures LookupOf(host, None, Grammar(host), Lanes(true, false, 1, exchange4, exchange6, late4), false) ==
            Failed(DnsError(NoSuchHost, Some(0), false, false, true))
  {
    var lane := LaneFor(exchange4, 1, TYPE_A);
    NoSuchNameLane(exchange4, authoritative);
    assert Lanes(true, false, 1, exchange4, exchange6, late4) == [lane];
    NothingFrom([lane]);
    FirstErrLasts([lane]);
  }

  /** The server knows no IPv4 address but never answers about IPv6: which lane is first decides the error. */
  lemma OrderDecides(host: string, exchange4: Exchanges, exchange6: Exchanges, late4: bool)
    requires Grammar(host)
    requires exchange4(0, 0) == Reply(Header(NameError, true, true), [])
    requires exchange6(0, 0) == exchange6(1, 0) == NoReply(0, true, true)
    ensures LookupOf(host, None, Grammar(host), Lanes(true, true, 1, exchange4, exchange6, late4), true) ==
            Failed(if late4 then DnsError(Exchange(0), Some(0), true, true, false)
                   else DnsError(NoSuchHost, Some(0), false, false, true))
  {
    var lane4, lane6 := LaneFor(exchange4, 1, TYPE_A), LaneFor(exchange6, 1, TYPE_AAAA);
    NoSuchNameLane(exchange4, true);
    TimedOutLane(exchange6);
    var lanes := Lanes(true, true, 1, exchange4, exchange6, late4);
    assert lanes == if late4 then [lane6, lane4] else [lane4, lane6];
    NothingFrom(lanes);
    FirstErrLasts(lanes);
  }
}
