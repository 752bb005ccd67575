/** The wire format of the packet tunnel: a little-endian 16-bit length, then the payload. */
module Frames {
  import opened Common

  /** Capacity of the packet buffers on both ends, the MTU of the TUN device. */
  const MTU: nat := 1420

  type Packet = p: seq<Byte> | |p| <= MTU witness []

  /** The bytes that the two writes of one packet put on a stream; `uint16(plen)` truncates. */
  function Frame(p: seq<Byte>): (f: seq<Byte>)
    ensures |f| == 2 + |p|
  {
    [|p| % 0x1_0000 % 256, |p| % 0x1_0000 / 256] + p
  }

  /** The length announced by the first two bytes. */
  function Size(h: seq<Byte>): nat
    requires |h| >= 2
  {
    h[0] as nat + 256 * h[1] as nat
  }

  /** The length is sent low byte first. */
  lemma LittleEndian(p: Packet)
    requires |p| == 258
    ensures Frame(p)[..2] == [2, 1] && Frame(p)[2..] == p && Size([2, 1]) == 258
  {
  }

  function Flat(ps: seq<Packet>): seq<Byte> {
    if ps == [] then [] else Frame(ps[0]) + Flat(ps[1..])
  }

  /** A proper prefix of some frame: what an interrupted write leaves behind. */
  ghost predicate Partial(tail: seq<Byte>) {
    exists p: Packet :: PartialOf(tail, p)
  }

  ghost predicate PartialOf(tail: seq<Byte>, p: Packet) {
    |tail| < |Frame(p)| && tail == Frame(p)[..|tail|]
  }

  lemma {:induction false} FlatSnoc(ps: seq<Packet>, p: Packet)
    ensures Flat(ps + [p]) == Flat(ps) + Frame(p)
  {
    if ps == [] {
      assert ps + [p] == [p];
    } else {
      assert (ps + [p])[1..] == ps[1..] + [p];
      FlatSnoc(ps[1..], p);
    }
  }

  /** Frames are self-delimiting: whole frames read off the front of a stream are its packets in order. */
  lemma {:induction false} FlatPrefix(qs: seq<Packet>, ps: seq<Packet>, tail: seq<Byte>)
    requires Partial(tail)
    requires Flat(qs) <= Flat(ps) + tail
    ensures qs <= ps
  {
    if qs != [] {
      HeadFrame(qs, ps, tail);
      PrefixTrans(Frame(qs[0]), Flat(qs[1..]), Flat(ps) + tail);
      assert (Flat(ps) + tail)[|Frame(ps[0])|..] == Flat(ps[1..]) + tail;
      FlatPrefix(qs[1..], ps[1..], tail);
      assert qs == [qs[0]] + qs[1..] && ps == [ps[0]] + ps[1..];
    }
  }

  /** The length a receiver decodes from a frame is the length of its payload. */
  lemma SizeOfFrame(p: Packet, s: seq<Byte>)
    requires |s| >= 2 && s[..2] == Frame(p)[..2]
    ensures Size(s) == |p|
  {
    assert s[0] == s[..2][0] && s[1] == s[..2][1];
  }

  lemma SamePayload(p: Packet, q: Packet, s: seq<Byte>)
    requires Frame(p) <= s && Frame(q) <= s
    ensures p == q
  {
    SizeOfFrame(p, s);
    SizeOfFrame(q, s);
    assert p == s[2..2 + |p|];
    assert q == s[2..2 + |q|];
  }

  /** A frame cannot start inside a proper prefix of a frame. */
  lemma NoFrameInPartial(p: Packet, tail: seq<Byte>)
    requires Partial(tail)
    ensures !(Frame(p) <= tail)
  {
    if Frame(p) <= tail {
      var q: Packet :| PartialOf(tail, q);
      SizeOfFrame(p, tail);
      SizeOfFrame(q, tail);
      assert false;
    }
  }

  /** The first frame of the shorter stream is the first frame of the longer one. */
  lemma HeadFrame(qs: seq<Packet>, ps: seq<Packet>, tail: seq<Byte>)
    requires Partial(tail) && qs != []
    requires Flat(qs) <= Flat(ps) + tail
    ensures ps != [] && ps[0] == qs[0]
  {
    var all := Flat(ps) + tail;
    PrefixTrans(Frame(qs[0]), Flat(qs[1..]), all);
    if ps == [] {
      assert all == tail;
      NoFrameInPartial(qs[0], tail);
    } else {
      PrefixFirst(Frame(ps[0]), Flat(ps[1..]), tail);
      SamePayload(qs[0], ps[0], all);
    }
  }

  lemma PrefixFirst(a: seq<Byte>, b: seq<Byte>, c: seq<Byte>)
    ensures a <= (a + b) + c
  {
  }

  lemma PrefixTrans(a: seq<Byte>, b: seq<Byte>, s: seq<Byte>)
    requires a + b <= s
    ensures a <= s && b <= s[|a|..]
  {
    assert a == (a + b)[..|a|];
    assert s[|a|..][..|b|] == s[..|a| + |b|][|a|..];
    assert (a + b)[|a|..] == b;
  }

  /** A stream of frames is cut into packets in one way only. */
  lemma FlatInjective(qs: seq<Packet>, left: seq<Byte>, ps: seq<Packet>, tail: seq<Byte>)
    requires Partial(left) && Partial(tail)
    requires Flat(qs) + left == Flat(ps) + tail
    ensures qs == ps && left == tail
  {
    var all := Flat(ps) + tail;
    assert all == Flat(qs) + left;
    assert Flat(qs) == all[..|Flat(qs)|] && Flat(ps) == all[..|Flat(ps)|];
    FlatPrefix(qs, ps, tail);
    FlatPrefix(ps, qs, left);
    assert all[|Flat(qs)|..] == left && all[|Flat(ps)|..] == tail;
  }
}
