/**
 * The receiving half of the packet tunnel: a loop that reads a two-byte length, then the packet into
 * a buffer it reuses, in whatever chunks the stream hands out, and writes the packet to the TUN.
 */
module TunnelReceiver {
  import opened Common
  import opened Frames

  /** What the environment does to the next call on the stream: cap the bytes handed out, or fail. */
  datatype Answer = Answer(n: nat, err: bool)

  datatype Why = HeaderErr | BodyErr | DeadlineErr | Oversize | Stranger

  /**
   * Why the handler stopped; `left` are the bytes of the stream from the last packet it delivered,
   * `unread` those that were waiting when the call that stopped it was made.
   */
  datatype End = End(why: Why, left: seq<Byte>, unread: seq<Byte>)

  datatype Outcome = Outcome(packets: seq<Packet>, end: End)

  function Taken(a: Answer, room: nat, unread: seq<Byte>): nat {
    Min(Min(a.n, room), |unread|)
  }

  datatype Body = Full(unread: seq<Byte>, script: seq<Answer>) | Broken(unread: seq<Byte>)

  /** The inner loop: reads until `need` more bytes have come; an exhausted script fails every call. */
  function ReadBody(unread: seq<Byte>, script: seq<Answer>, need: nat): Body
    decreases |script|
  {
    if need == 0 then Full(unread, script)
    else if script == [] || script[0].err then Broken(unread)
    else
      var n := Taken(script[0], need, unread);
      ReadBody(unread[n..], script[1..], need - n)
  }

  /** The whole handler; `h` is what the length buffer still holds from the previous packet. */
  function Receive(unread: seq<Byte>, script: seq<Answer>, h: seq<Byte>): Outcome
    requires |h| == 2
    decreases |script|
  {
    if script == [] || script[0].err then Outcome([], End(HeaderErr, unread, unread))
    else
      var n := Taken(script[0], 2, unread);
      var h' := unread[..n] + h[n..];
      var size := Size(h');
      if size > MTU then Outcome([], End(Oversize, unread, unread[n..]))
      else
        BodyConsumes(unread[n..], script[1..], size);
        match ReadBody(unread[n..], script[1..], size)
        case Broken(rest) => Outcome([], End(BodyErr, unread, rest))
        case Full(rest, script') =>
          if script' == [] || script'[0].err then Outcome([], End(DeadlineErr, unread, rest))
          else
            var more := Receive(rest, script'[1..], h');
            Outcome([unread[n..][..size]] + more.packets, more.end)
  }

  /** A body that is read in full is the next `need` bytes of the stream; a broken one is fewer. */
  lemma {:induction false} BodyConsumes(unread: seq<Byte>, script: seq<Answer>, need: nat)
    ensures var body := ReadBody(unread, script, need);
            match body
            case Full(rest, script') => need <= |unread| && rest == unread[need..] && |script'| <= |script|
            case Broken(rest) => |rest| <= |unread| < |rest| + need
    decreases |script|
  {
    if need != 0 && script != [] && !script[0].err {
      var n := Taken(script[0], need, unread);
      BodyConsumes(unread[n..], script[1..], need - n);
      if n <= need <= |unread| {
        assert unread[n..][need - n..] == unread[need..];
      }
    }
  }

  /** The bytes that the calls before the first failing one may hand out. */
  function Supply(script: seq<Answer>): nat {
    if script == [] || script[0].err then 0 else script[0].n + Supply(script[1..])
  }

  /** How many calls it takes to hand out `need` bytes. */
  function Calls(script: seq<Answer>, need: nat): (k: nat)
    requires need <= Supply(script)
    ensures k <= |script|
  {
    if need == 0 then 0
    else if need <= script[0].n then 1
    else 1 + Calls(script[1..], need - script[0].n)
  }

  /**
   * A body is read in full exactly when its bytes are there and the calls before the first failing one
   * may hand out that many, in whatever portions; and it takes just the calls it needs.
   */
  lemma {:induction false} BodyIsFull(unread: seq<Byte>, script: seq<Answer>, need: nat)
    ensures var body := ReadBody(unread, script, need);
            && (body.Full? <==> need <= |unread| && need <= Supply(script))
            && (body.Full? ==> body.unread == unread[need..] && body.script == script[Calls(script, need)..])
    decreases |script|
  {
    if need != 0 && script != [] && !script[0].err {
      var n := Taken(script[0], need, unread);
      BodyIsFull(unread[n..], script[1..], need - n);
      BodyConsumes(unread, script, need);
      if need <= |unread| && need <= Supply(script) {
        assert n == Min(script[0].n, need);
        assert script[1..][Calls(script[1..], need - n)..] == script[1 + Calls(script[1..], need - n)..];
      }
    }
  }

  /** The handler of a peer that is not configured stops before it reads anything. */
  lemma StrangerIgnored(unread: seq<Byte>, script: seq<Answer>)
    ensures Handle(false, unread, script) == Outcome([], End(Stranger, unread, unread))
  {
  }

  class Conn {
    var unread: seq<Byte>
    var script: seq<Answer>

    constructor (unread: seq<Byte>, script: seq<Answer>)
      ensures this.unread == unread && this.script == script
    {
      this.unread := unread;
      this.script := script;
    }

    /**
     * `Read(buf[lo..hi])`: may hand out fewer bytes than there is room for, or none. Bytes that come
     * with an error are dropped by both callers, so a failing call is modelled as handing out none.
     */
    method Read(buf: array<Byte>, lo: nat, hi: nat) returns (n: nat, err: bool)
      requires lo <= hi <= buf.Length
      modifies this, buf
      ensures err == (old(script) == [] || old(script)[0].err)
      ensures script == if old(script) == [] then [] else old(script)[1..]
      ensures n == if err then 0 else Taken(old(script)[0], hi - lo, old(unread))
      ensures unread == old(unread)[n..]
      ensures buf[..] == old(buf[..lo]) + old(unread)[..n] + old(buf[lo + n..])
    {
      err := script == [] || script[0].err;
      n := 0;
      if !err {
        n := Taken(script[0], hi - lo, unread);
        forall i | 0 <= i < n {
          buf[lo + i] := unread[i];
        }
      }
      unread := unread[n..];
      script := if script == [] then [] else script[1..];
    }

    method SetWriteDeadline() returns (err: bool)
      modifies this
      ensures err == (old(script) == [] || old(script)[0].err)
      ensures script == if old(script) == [] then [] else old(script)[1..]
      ensures unread == old(unread)
    {
      err := script == [] || script[0].err;
      script := if script == [] then [] else script[1..];
    }
  }

  class Tun {
    var written: seq<Packet>

    constructor ()
      ensures written == []
    {
      written := [];
    }

    method Write(packet: Packet)
      modifies this
      ensures written == old(written) + [packet]
    {
      written := written + [packet];
    }
  }

  function Handle(known: bool, unread: seq<Byte>, script: seq<Answer>): Outcome {
    if known then Receive(unread, script, [0, 0]) else Outcome([], End(Stranger, unread, unread))
  }

  /** One round of the loop in which every call succeeds delivers one packet. */
  lemma ReceiveRound(unread: seq<Byte>, script: seq<Answer>, h: seq<Byte>, h': seq<Byte>, size: nat)
    requires |h| == |h'| == 2 && script != [] && !script[0].err
    requires var n := Taken(script[0], 2, unread);
             && h' == unread[..n] + h[n..] && size == Size(h') <= MTU
             && ReadBody(unread[n..], script[1..], size).Full?
             && ReadBody(unread[n..], script[1..], size).script != []
             && !ReadBody(unread[n..], script[1..], size).script[0].err
    ensures var n := Taken(script[0], 2, unread);
            var body := ReadBody(unread[n..], script[1..], size);
            && size <= |unread[n..]|
            && var more := Receive(body.unread, body.script[1..], h');
            Receive(unread, script, h) == Outcome([unread[n..][..size]] + more.packets, more.end)
  {
    BodyConsumes(unread[Taken(script[0], 2, unread)..], script[1..], size);
  }

  /** One read of the length buffer, and its value, whether or not the read filled it. */
  method ReadSize(conn: Conn, packetSize: array<Byte>) returns (size: nat, err: bool)
    requires packetSize.Length == 2
    modifies conn, packetSize
    ensures err == (old(conn.script) == [] || old(conn.script)[0].err)
    ensures !err ==>
              var n := Taken(old(conn.script)[0], 2, old(conn.unread));
              && packetSize[..] == old(conn.unread)[..n] + old(packetSize[..])[n..]
              && size == Size(packetSize[..])
              && conn.unread == old(conn.unread)[n..] && conn.script == old(conn.script)[1..]
    ensures |conn.script| < |old(conn.script)| || err
  {
    var n;
    n, err := conn.Read(packetSize, 0, 2);
    size := packetSize[0] as nat + 256 * packetSize[1] as nat;
  }

  lemma NextChunk(body: seq<Byte>, plen: nat, tmp: nat)
    requires plen + tmp <= |body|
    ensures body[..plen] + body[plen..][..tmp] == body[..plen + tmp]
    ensures body[plen..][tmp..] == body[plen + tmp..]
  {
  }

  /** The inner loop, reading one packet of `size` bytes into the reused buffer. */
  method ReadPacket(conn: Conn, packet: array<Byte>, size: nat) returns (broken: bool)
    requires size <= packet.Length
    modifies conn, packet
    ensures broken == ReadBody(old(conn.unread), old(conn.script), size).Broken?
    ensures !broken ==>
              && size <= |old(conn.unread)| && packet[..size] == old(conn.unread)[..size]
              && ReadBody(old(conn.unread), old(conn.script), size) == Full(conn.unread, conn.script)
    ensures |conn.script| <= |old(conn.script)|
  {
    ghost var body, answers := conn.unread, conn.script;
    BodyConsumes(body, answers, size);
    var plen := 0;
    while plen < size
      invariant plen <= size && plen <= |body|
      invariant packet[..plen] == body[..plen] && conn.unread == body[plen..]
      invariant ReadBody(body, answers, size) == ReadBody(conn.unread, conn.script, size - plen)
      invariant |conn.script| <= |answers|
      decreases size - plen, |conn.script|
    {
      ghost var was := packet[..plen];
      var tmp, err := conn.Read(packet, plen, size);
      if err {
        return true;
      }
      assert packet[..plen + tmp] == was + body[plen..][..tmp];
      NextChunk(body, plen, tmp);
      plen := plen + tmp;
    }
    return false;
  }

  /** One round of the handler's loop: one packet delivered, or the reason to stop. */
  method Round(conn: Conn, tun: Tun, packet: array<Byte>, packetSize: array<Byte>) returns (stop: Option<Why>)
    requires packet.Length == MTU && packetSize.Length == 2 && packet != packetSize
    modifies conn, tun, packet, packetSize
    ensures var out := Receive(old(conn.unread), old(conn.script), old(packetSize[..]));
            match stop
            case Some(why) => tun.written == old(tun.written) && out.packets == [] && out.end.why == why
            case None =>
              var more := Receive(conn.unread, conn.script, packetSize[..]);
              && |tun.written| == |old(tun.written)| + 1 && |out.packets| > 0
              && tun.written == old(tun.written) + [out.packets[0]]
              && out == Outcome([out.packets[0]] + more.packets, more.end)
    ensures stop.None? ==> |conn.script| < |old(conn.script)|
  {
    ghost var unread, script, h := conn.unread, conn.script, packetSize[..];
    var size, err := ReadSize(conn, packetSize);
    if err {
      return Some(HeaderErr);
    }
    if size > MTU {
      return Some(Oversize); // the slice packet[plen:size] is out of range
    }
    var broken := ReadPacket(conn, packet, size);
    if broken {
      return Some(BodyErr);
    }
    var late := conn.SetWriteDeadline();
    if late {
      return Some(DeadlineErr);
    }
    ReceiveRound(unread, script, h, packetSize[..], size);
    tun.Write(packet[..size]);
    return None;
  }

  method StreamHandler(conn: Conn, tun: Tun, known: bool) returns (why: Why)
    modifies conn, tun
    ensures tun.written == old(tun.written) + Handle(known, old(conn.unread), old(conn.script)).packets
    ensures why == Handle(known, old(conn.unread), old(conn.script)).end.why
  {
    if !known {
      return Stranger;
    }
    var packet := new Byte[MTU](_ => 0);
    var packetSize := new Byte[2](_ => 0);
    assert packetSize[..] == [0, 0];
    ghost var all := Receive(conn.unread, conn.script, packetSize[..]);
    while true
      invariant fresh(packet) && fresh(packetSize) && packet != packetSize
      invariant packet.Length == MTU && packetSize.Length == 2
      invariant old(tun.written) + all.packets ==
                tun.written + Receive(conn.unread, conn.script, packetSize[..]).packets
      invariant all.end == Receive(conn.unread, conn.script, packetSize[..]).end
      decreases |conn.script|
    {
      ghost var written, out := tun.written, Receive(conn.unread, conn.script, packetSize[..]);
      var stop := Round(conn, tun, packet, packetSize);
      if stop.Some? {
        NoneLeft(written, old(tun.written) + all.packets, out.packets);
        return stop.value;
      }
      Shift(written, out.packets, Receive(conn.unread, conn.script, packetSize[..]).packets);
    }
  }

  lemma NoneLeft(written: seq<Packet>, all: seq<Packet>, rest: seq<Packet>)
    requires all == written + rest && rest == []
    ensures all == written
  {
  }

  /** Writing the first of the packets to come leaves the rest of them to come. */
  lemma Shift(written: seq<Packet>, out: seq<Packet>, more: seq<Packet>)
    requires out != [] && out == [out[0]] + more
    ensures written + out == (written + [out[0]]) + more
  {
  }
}
