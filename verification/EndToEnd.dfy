/** Sender and receiver joined: what a stream delivers is what the goroutines put on it. */
module EndToEnd {
  import opened Common
  import opened Frames
  import opened TunnelReceiver
  import TunnelSender
  import TunnelSenderRuns

  /** Every read of a length that succeeds hands out both bytes; the handler never checks this. */
  ghost predicate HeadersWhole(unread: seq<Byte>, script: seq<Answer>)
    decreases |script|
  {
    script == [] || script[0].err ||
    (Taken(script[0], 2, unread) == 2 &&
     (BodyConsumes(unread[2..], script[1..], Size(unread));
      Size(unread) <= MTU ==>
        match ReadBody(unread[2..], script[1..], Size(unread))
        case Broken(_) => true
        case Full(rest, script') => script' == [] || script'[0].err || HeadersWhole(rest, script'[1..])))
  }

  /** Nothing is lost, doubled or reordered: delivered packets and the rest make up the stream. */
  lemma {:induction false} Conserved(unread: seq<Byte>, script: seq<Answer>, h: seq<Byte>)
    requires |h| == 2 && HeadersWhole(unread, script)
    ensures var out := Receive(unread, script, h);
            unread == Flat(out.packets) + out.end.left
    decreases |script|
  {
    if WholeRound(unread, script) {
      RoundReads(unread, script, h);
      var body := RoundBody(unread, script);
      Conserved(body.unread, body.script[1..], unread[..2]);
      var more := Receive(body.unread, body.script[1..], unread[..2]);
      Glue(unread, unread[2..][..Size(unread)], body.unread, more.packets, more.end.left);
    } else {
      NoRoundReads(unread, script, h);
    }
  }

  /** The first round of the loop reads a length and a body and arms the deadline. */
  predicate WholeRound(unread: seq<Byte>, script: seq<Answer>) {
    script != [] && !script[0].err && |unread| >= 2 && Size(unread) <= MTU &&
    var body := RoundBody(unread, script);
    body.Full? && body.script != [] && !body.script[0].err
  }

  function RoundBody(unread: seq<Byte>, script: seq<Answer>): Body
    requires |unread| >= 2 && script != []
  {
    ReadBody(unread[2..], script[1..], Size(unread))
  }

  /** A round with a whole length: the packet it delivers, and what the rest of the run sees. */
  lemma RoundReads(unread: seq<Byte>, script: seq<Answer>, h: seq<Byte>)
    requires |h| == 2 && HeadersWhole(unread, script) && WholeRound(unread, script)
    ensures var body := RoundBody(unread, script);
            && Size(unread) <= |unread[2..]| && body.unread == unread[2..][Size(unread)..] && |body.script| < |script|
            && HeadersWhole(body.unread, body.script[1..])
            && var more := Receive(body.unread, body.script[1..], unread[..2]);
            Receive(unread, script, h) == Outcome([unread[2..][..Size(unread)]] + more.packets, more.end)
  {
    BodyConsumes(unread[2..], script[1..], Size(unread));
    assert unread[..2] + h[2..] == unread[..2];
    ReceiveRound(unread, script, h, unread[..2], Size(unread));
  }

  /** A round that delivers nothing is the last, and leaves everything it looked at. */
  lemma NoRoundReads(unread: seq<Byte>, script: seq<Answer>, h: seq<Byte>)
    requires |h| == 2 && HeadersWhole(unread, script) && !WholeRound(unread, script)
    ensures var out := Receive(unread, script, h);
            && out.packets == [] && out.end.left == unread && !out.end.why.Stranger?
            && (out.end.why.HeaderErr? ==> out.end.unread == unread)
            && (out.end.why.BodyErr? ==>
                  |unread| >= 2 && Size(unread) <= MTU && |unread| < 2 + |out.end.unread| + Size(unread))
            && (out.end.why.Oversize? ==> |unread| >= 2 && Size(unread) > MTU)
  {
    if script != [] && !script[0].err {
      assert unread[..2] + h[2..] == unread[..2];
      BodyConsumes(unread[2..], script[1..], Size(unread));
    }
  }

  lemma Glue(unread: seq<Byte>, p: Packet, rest: seq<Byte>, ps: seq<Packet>, left: seq<Byte>)
    requires |unread| >= 2 && |p| == Size(unread) && p <= unread[2..] && rest == unread[2..][|p|..]
    requires rest == Flat(ps) + left
    ensures unread == Flat([p] + ps) + left
  {
    assert Frame(p) == unread[..2] + p;
    assert unread == Frame(p) + rest;
    assert ([p] + ps)[1..] == ps;
  }

  /** When the call that stopped the handler found nothing to read, what is left is part of a frame. */
  lemma {:induction false} EndOfRun(unread: seq<Byte>, script: seq<Answer>, h: seq<Byte>)
    requires |h| == 2 && HeadersWhole(unread, script)
    ensures var end := Receive(unread, script, h).end;
            && !end.why.Stranger?
            && (end.unread == [] && (end.why.HeaderErr? || end.why.BodyErr?) ==> Partial(end.left))
            && (end.why.Oversize? ==> |end.left| >= 2 && Size(end.left) > MTU)
    decreases |script|
  {
    if WholeRound(unread, script) {
      RoundReads(unread, script, h);
      var body := RoundBody(unread, script);
      EndOfRun(body.unread, body.script[1..], unread[..2]);
    } else {
      NoRoundReads(unread, script, h);
      var end := Receive(unread, script, h).end;
      if end.unread == [] && end.why.BodyErr? {
        CutBody(unread, Size(unread));
      } else if end.unread == [] && end.why.HeaderErr? {
        assert PartialOf([], []);
      }
    }
  }

  lemma CutBody(s: seq<Byte>, size: nat)
    requires |s| >= 2 && Size(s) == size <= MTU && |s| < 2 + size
    ensures Partial(s)
  {
    var p: Packet := s[2..] + seq(2 + size - |s|, _ => 0);
    assert Frame(p)[..|s|] == s;
    assert PartialOf(s, p);
  }

  lemma {:induction false} FlatConcat(ps: seq<Packet>, qs: seq<Packet>)
    ensures Flat(ps + qs) == Flat(ps) + Flat(qs)
  {
    if ps == [] {
      assert ps + qs == qs;
    } else {
      assert (ps + qs)[1..] == ps[1..] + qs;
      FlatConcat(ps[1..], qs);
    }
  }

  /** At a frame boundary of a stream of packets, the next length is at most the MTU. */
  lemma NextFits(qs: seq<Packet>, left: seq<Byte>, ps: seq<Packet>, tail: seq<Byte>)
    requires Partial(tail) && qs <= ps && |left| >= 2
    requires Flat(qs) + left <= Flat(ps) + tail
    ensures Size(left) <= MTU
  {
    var rs := ps[|qs|..];
    assert ps == qs + rs;
    FlatConcat(qs, rs);
    assert Flat(ps) + tail == Flat(qs) + (Flat(rs) + tail);
    PrefixTrans(Flat(qs), left, Flat(ps) + tail);
    FirstFits(left, rs, tail);
  }

  lemma FirstFits(left: seq<Byte>, rs: seq<Packet>, tail: seq<Byte>)
    requires Partial(tail) && |left| >= 2 && left <= Flat(rs) + tail
    ensures Size(left) <= MTU
  {
    if rs == [] {
      var p: Packet :| PartialOf(tail, p);
      assert left[..2] == tail[..2] == Frame(p)[..2];
      SizeOfFrame(p, left);
    } else {
      assert left[..2] == (Flat(rs) + tail)[..2] == Frame(rs[0])[..2];
      SizeOfFrame(rs[0], left);
    }
  }

  /**
   * The calls suffice for a packet: a length read of two bytes, as many reads as its body takes in
   * whatever portions, and a deadline call, none of which fails.
   */
  predicate FedOne(p: Packet, script: seq<Answer>) {
    && script != [] && !script[0].err && script[0].n >= 2 && |p| <= Supply(script[1..])
    && Calls(script[1..], |p|) < |script[1..]| && !script[1..][Calls(script[1..], |p|)].err
  }

  function AfterOne(p: Packet, script: seq<Answer>): (rest: seq<Answer>)
    requires FedOne(p, script)
    ensures |rest| < |script|
  {
    script[1..][Calls(script[1..], |p|)..][1..]
  }

  /** The calls suffice for these packets. */
  predicate Fed(ps: seq<Packet>, script: seq<Answer>)
    decreases |ps|
  {
    ps == [] || (FedOne(ps[0], script) && Fed(ps[1..], AfterOne(ps[0], script)))
  }

  /** One packet that has arrived and is fed is delivered, and the rest of the run is that of what follows it. */
  lemma FirstDelivered(unread: seq<Byte>, script: seq<Answer>, h: seq<Byte>, p: Packet)
    requires |h| == 2 && Frame(p) <= unread && FedOne(p, script)
    ensures var more := Receive(unread[|Frame(p)|..], AfterOne(p, script), unread[..2]);
            Receive(unread, script, h) == Outcome([p] + more.packets, more.end)
  {
    FrameHead(p, unread);
    BodyIsFull(unread[2..], script[1..], |p|);
    assert unread[..2] + h[2..] == unread[..2];
    ReceiveRound(unread, script, h, unread[..2], |p|);
  }

  /** The parts of a stream that begins with a frame. */
  lemma FrameHead(p: Packet, unread: seq<Byte>)
    requires Frame(p) <= unread
    ensures Size(unread[..2]) == |p| <= |unread[2..]|
    ensures unread[2..][..|p|] == p && unread[2..][|p|..] == unread[|Frame(p)|..]
  {
    SizeOfFrame(p, unread[..2]);
    var f := Frame(p);
    assert f == unread[..|f|] && f[2..] == p;
    assert unread[2..][..|p|] == unread[..|f|][2..];
  }

  /** Packets that have arrived whole and are fed are delivered, however their bodies are chunked. */
  lemma {:induction false} Delivered(unread: seq<Byte>, script: seq<Answer>, h: seq<Byte>, ps: seq<Packet>)
    requires |h| == 2 && Flat(ps) <= unread && Fed(ps, script)
    ensures ps <= Receive(unread, script, h).packets
    decreases |ps|
  {
    if ps != [] {
      PrefixTrans(Frame(ps[0]), Flat(ps[1..]), unread);
      FirstDelivered(unread, script, h, ps[0]);
      Delivered(unread[|Frame(ps[0])|..], AfterOne(ps[0], script), unread[..2], ps[1..]);
      assert ps == [ps[0]] + ps[1..];
    }
  }

  lemma RoundFed(unread: seq<Byte>, script: seq<Answer>)
    requires HeadersWhole(unread, script) && WholeRound(unread, script)
    ensures Size(unread) <= |unread[2..]|
    ensures var p := unread[2..][..Size(unread)];
            FedOne(p, script) && AfterOne(p, script) == RoundBody(unread, script).script[1..]
  {
    BodyIsFull(unread[2..], script[1..], Size(unread));
  }

  /** And packets that are delivered have arrived whole and were fed. */
  lemma {:induction false} DeliveredOnly(unread: seq<Byte>, script: seq<Answer>, h: seq<Byte>, i: nat)
    requires |h| == 2 && HeadersWhole(unread, script) && i <= |Receive(unread, script, h).packets|
    ensures Fed(Receive(unread, script, h).packets[..i], script)
    ensures Flat(Receive(unread, script, h).packets[..i]) <= unread
    decreases |script|
  {
    if i > 0 {
      if WholeRound(unread, script) {
        RoundReads(unread, script, h);
        var body := RoundBody(unread, script);
        RoundFed(unread, script);
        var more := Receive(body.unread, body.script[1..], unread[..2]);
        DeliveredOnly(body.unread, body.script[1..], unread[..2], i - 1);
        OneMore(unread, unread[2..][..Size(unread)], more.packets, i - 1);
      } else {
        NoRoundReads(unread, script, h);
        assert false;
      }
    }
  }

  lemma OneMore(unread: seq<Byte>, p: Packet, ps: seq<Packet>, i: nat)
    requires |unread| >= 2 && |p| == Size(unread) && p <= unread[2..] && i <= |ps|
    requires Flat(ps[..i]) <= unread[2..][|p|..]
    ensures ([p] + ps)[..i + 1] == [p] + ps[..i] && ([p] + ps[..i])[1..] == ps[..i]
    ensures Flat([p] + ps[..i]) <= unread
  {
    assert Frame(p) == unread[..2] + p;
    assert unread == Frame(p) + unread[2..][|p|..];
  }

  /**
   * For every schedule of senders, every part of a stream that has arrived and every chunking that
   * splits no length: the packets written to the TUN are the first of the whole frames on that
   * stream, byte for byte and in order; and no slice leaves the buffer. The `i`-th of them is written
   * exactly when it has arrived whole and the calls suffice for it and those before it; so all of them
   * are when they suffice for all, or when reading stops only where nothing is left.
   */
  lemma Delivery(steps: seq<TunnelSender.Step>, x: nat, seen: seq<Byte>, script: seq<Answer>)
    requires TunnelSender.Exec(steps).Some? && x < |TunnelSender.Exec(steps).value.streams|
    requires seen <= TunnelSender.Exec(steps).value.streams[x].bytes
    requires HeadersWhole(seen, script)
    ensures var s := TunnelSender.Exec(steps).value;
            var out := Handle(true, seen, script);
            && out.packets <= TunnelSender.On(s.log, x)
            && !out.end.why.Oversize?
            && (seen == s.streams[x].bytes && out.end.unread == [] && !out.end.why.DeadlineErr? ==>
                  out.packets == TunnelSender.On(s.log, x))
            && (forall i :: 0 <= i <= |TunnelSender.On(s.log, x)| ==>
                  (i <= |out.packets| <==>
                   Fed(TunnelSender.On(s.log, x)[..i], script) && Flat(TunnelSender.On(s.log, x)[..i]) <= seen))
  {
    var s := TunnelSender.Exec(steps).value;
    TunnelSenderRuns.FramesStayWhole(steps, x);
    var ps := TunnelSender.On(s.log, x);
    Reassembled(seen, script, ps, TunnelSender.MidBytes(s.streams[x].mid));
    forall i | 0 <= i <= |ps|
      ensures i <= |Handle(true, seen, script).packets| <==> Fed(ps[..i], script) && Flat(ps[..i]) <= seen
    {
      DeliveredExactly(seen, script, ps, i);
    }
  }

  lemma DeliveredExactly(seen: seq<Byte>, script: seq<Answer>, ps: seq<Packet>, i: nat)
    requires HeadersWhole(seen, script) && Handle(true, seen, script).packets <= ps && i <= |ps|
    ensures i <= |Handle(true, seen, script).packets| <==> Fed(ps[..i], script) && Flat(ps[..i]) <= seen
  {
    var out := Receive(seen, script, [0, 0]);
    if i <= |out.packets| {
      DeliveredOnly(seen, script, [0, 0], i);
      assert out.packets[..i] == ps[..i];
    }
    if Fed(ps[..i], script) && Flat(ps[..i]) <= seen {
      Delivered(seen, script, [0, 0], ps[..i]);
    }
  }

  lemma Reassembled(seen: seq<Byte>, script: seq<Answer>, ps: seq<Packet>, tail: seq<Byte>)
    requires Partial(tail) && seen <= Flat(ps) + tail && HeadersWhole(seen, script)
    ensures var out := Handle(true, seen, script);
            && out.packets <= ps && !out.end.why.Oversize?
            && (seen == Flat(ps) + tail && out.end.unread == [] && !out.end.why.DeadlineErr? ==> out.packets == ps)
  {
    var out := Receive(seen, script, [0, 0]);
    Conserved(seen, script, [0, 0]);
    assert Flat(out.packets) <= Flat(ps) + tail;
    FlatPrefix(out.packets, ps, tail);
    EndOfRun(seen, script, [0, 0]);
    if out.end.why.Oversize? {
      NextFits(out.packets, out.end.left, ps, tail);
    } else if seen == Flat(ps) + tail && out.end.unread == [] && !out.end.why.DeadlineErr? {
      FlatInjective(out.packets, out.end.left, ps, tail);
    }
  }

  /** A split length does garble the stream: the one packet 9 arrives as the packet 0. */
  lemma SplitHeaderGarbles()
    ensures var p: Packet := [9];
            && Handle(true, Frame(p), [Answer(1, false), Answer(1, false), Answer(0, false)]).packets == [[0]]
            && !HeadersWhole(Frame(p), [Answer(1, false), Answer(1, false), Answer(0, false)])
  {
    var p: Packet := [9];
    var stream := Frame(p);
    assert stream == [1, 0, 9];
    var script := [Answer(1, false), Answer(1, false), Answer(0, false)];
    var h: seq<Byte> := [0, 0];
    assert stream[..1] + h[1..] == [1, 0];
    assert stream[1..] == [0, 9] && script[1..] == [Answer(1, false), Answer(0, false)];
    assert ReadBody([9], [Answer(0, false)], 0) == Full([9], [Answer(0, false)]);
    assert stream[1..][1..] == [9] && script[1..][1..] == [Answer(0, false)];
    assert ReadBody(stream[1..], script[1..], 1) == Full([9], [Answer(0, false)]);
    assert [Answer(0, false)][1..] == [];
    assert Receive([9], [], [1, 0]).packets == [];
    assert stream[1..][..1] == [0];
    assert Taken(script[0], 2, stream) == 1 && Size(stream[..1] + h[1..]) == 1;
    assert Receive(stream, script, h).packets == [stream[1..][..1]] + Receive([9], [], [1, 0]).packets;
  }
}
