/**
 * Addresses folded from peer IDs and service names, and the networks that route them. Peer IDs and
 * names are byte strings of any length; the folds are XOR loops over fixed arrays.
 */
module Addresses {
  type Bytes = seq<bv8>

  function Xor(a: bv8, b: bv8): bv8 {
    a ^ b
  }

  /** `seed` combined with the elements of `p` whose index is `k` modulo `m`, in order. */
  function Fold<T>(op: (T, T) -> T, seed: T, p: seq<T>, m: nat, k: nat): T
    requires m > 0
  {
    if p == [] then seed
    else
      var n := |p| - 1;
      if n % m == k then op(Fold(op, seed, p[..n], m, k), p[n]) else Fold(op, seed, p[..n], m, k)
  }

  /** One lane for every seed. */
  function Folds(seeds: Bytes, p: Bytes): (r: Bytes)
    ensures |r| == |seeds|
  {
    seq(|seeds|, k requires 0 <= k < |seeds| => Fold(Xor, seeds[k], p, |seeds|, k))
  }

  /** The index of a byte, truncated to a byte. */
  function IndexByte(i: nat): bv8 {
    (i % 256) as bv8
  }

  function Times(a: bv8, b: bv8): bv8 {
    a * b
  }

  /** Every byte multiplied by its index, in byte arithmetic. */
  function Weighted(name: Bytes): (w: Bytes)
    ensures |w| == |name|
  {
    seq(|name|, i requires 0 <= i < |name| => Times(name[i], IndexByte(i)))
  }

  const NET_SEEDS: Bytes := [0xde, 0xad, 0xbe, 0xef]
  const SERVICE_SEEDS: Bytes := [0xff, 0xfe]
  const ADDR4_SEEDS: Bytes := [1, 2]

  function NetID(p: Bytes): Bytes {
    Folds(NET_SEEDS, p)
  }

  function ServiceID(name: Bytes): Bytes {
    Folds(SERVICE_SEEDS, Weighted(name))
  }

  function Addr4(p: Bytes): Bytes {
    [100, 64] + Folds(ADDR4_SEEDS, p)
  }

  /** fd00 and the letters "hyprspace", then a zero byte. */
  const BUILTIN_PREFIX: Bytes := [0xfd, 0, 0x68, 0x79, 0x70, 0x72, 0x73, 0x70, 0x61, 0x63, 0x65, 0]

  /** fd00 and the letters "hyprspsv". */
  const SERVICE_PREFIX: Bytes := [0xfd, 0, 0x68, 0x79, 0x70, 0x72, 0x73, 0x70, 0x73, 0x76]

  function Addr6(p: Bytes): Bytes {
    BUILTIN_PREFIX + NetID(p)
  }

  function ServiceAddr6(p: Bytes, name: Bytes): Bytes {
    SERVICE_PREFIX + NetID(p) + ServiceID(name)
  }

  lemma FoldNext<T>(op: (T, T) -> T, seed: T, p: seq<T>, i: nat, m: nat, k: nat)
    requires m > 0 && i < |p|
    ensures Fold(op, seed, p[..i + 1], m, k) ==
            if i % m == k then op(Fold(op, seed, p[..i], m, k), p[i]) else Fold(op, seed, p[..i], m, k)
  {
    assert p[..i + 1][..i] == p[..i];
  }

  /** One round of a fold loop: element `i` is combined into lane `i % m`. */
  lemma FoldsNext(seeds: Bytes, p: Bytes, i: nat)
    requires |seeds| > 0 && i < |p|
    ensures forall k :: 0 <= k < |seeds| ==>
              Folds(seeds, p[..i + 1])[k] ==
              if i % |seeds| == k then Xor(Folds(seeds, p[..i])[k], p[i]) else Folds(seeds, p[..i])[k]
  {
    forall k | 0 <= k < |seeds|
      ensures Folds(seeds, p[..i + 1])[k] ==
              if i % |seeds| == k then Xor(Folds(seeds, p[..i])[k], p[i]) else Folds(seeds, p[..i])[k]
    {
      FoldNext(Xor, seeds[k], p, i, |seeds|, k);
    }
  }

  method MkNetID(p: Bytes) returns (r: array<bv8>)
    ensures fresh(r) && r[..] == NetID(p)
  {
    r := new bv8[] [0xde, 0xad, 0xbe, 0xef];
    for i := 0 to |p|
      invariant r.Length == 4 && forall k :: 0 <= k < 4 ==> r[k] == NetID(p[..i])[k]
    {
      FoldsNext(NET_SEEDS, p, i);
      r[i % 4] := r[i % 4] ^ p[i];
    }
    assert p[..|p|] == p;
  }

  method MkServiceID(name: Bytes) returns (id: array<bv8>)
    ensures fresh(id) && id[..] == ServiceID(name)
  {
    id := new bv8[] [0xff, 0xfe];
    ghost var w := Weighted(name);
    for i := 0 to |name|
      invariant id.Length == 2 && forall k :: 0 <= k < 2 ==> id[k] == Folds(SERVICE_SEEDS, w[..i])[k]
    {
      FoldsNext(SERVICE_SEEDS, w, i);
      var x := Times(name[i], IndexByte(i));
      id[i % 2] := id[i % 2] ^ x;
    }
    assert w[..|name|] == w;
  }

  method MkBuiltinAddr4(p: Bytes) returns (addr: array<bv8>)
    ensures fresh(addr) && addr[..] == Addr4(p)
  {
    addr := new bv8[] [100, 64, 1, 2];
    for i := 0 to |p|
      invariant addr.Length == 4 && addr[0] == 100 && addr[1] == 64
      invariant forall k :: 2 <= k < 4 ==> addr[k] == Folds(ADDR4_SEEDS, p[..i])[k - 2]
    {
      FoldsNext(ADDR4_SEEDS, p, i);
      var j := i % 2;
      addr[j + 2] := addr[j + 2] ^ p[i];
    }
    assert p[..|p|] == p;
  }

  /** The fold into bytes 12 to 15 is overwritten by the net ID. */
  method MkBuiltinAddr6(p: Bytes) returns (addr: array<bv8>)
    ensures fresh(addr) && addr[..] == Addr6(p)
  {
    addr := new bv8[16](i requires 0 <= i => if i < 12 then BUILTIN_PREFIX[i] else 0);
    for i := 0 to |p|
      invariant addr.Length == 16 && addr[..12] == BUILTIN_PREFIX
    {
      addr[i % 4 + 12] := addr[i % 4 + 12] ^ p[i];
    }
    var netId := MkNetID(p);
    var id := netId[..];
    addr[12], addr[13], addr[14], addr[15] := id[0], id[1], id[2], id[3];
    assert addr[..] == addr[..12] + id;
  }

  method MkServiceAddr6(p: Bytes, name: Bytes) returns (addr: array<bv8>)
    ensures fresh(addr) && addr[..] == ServiceAddr6(p, name)
  {
    addr := new bv8[16](i requires 0 <= i => if i < 10 then SERVICE_PREFIX[i] else 0);
    var netId := MkNetID(p);
    var id := netId[..];
    addr[10], addr[11], addr[12], addr[13] := id[0], id[1], id[2], id[3];
    var svcId := MkServiceID(name);
    var sv := svcId[..];
    addr[14], addr[15] := sv[0], sv[1];
    assert addr[..10] == SERVICE_PREFIX;
    assert addr[..] == addr[..10] + id + sv;
  }

  // What the folds start from, and what one more byte does

  /** One more element is combined into the lane of its index, and into no other. */
  lemma FoldsSnoc(seeds: Bytes, p: Bytes, b: bv8)
    requires |seeds| > 0
    ensures Folds(seeds, p + [b]) ==
            Folds(seeds, p)[|p| % |seeds| := Xor(Folds(seeds, p)[|p| % |seeds|], b)]
  {
    assert (p + [b])[..|p|] == p && (p + [b])[..|p| + 1] == p + [b];
    FoldsNext(seeds, p + [b], |p|);
  }

  /** The IDs and addresses of the empty peer ID and the empty name, from which all others are built. */
  lemma EmptyIDs()
    ensures NetID([]) == [0xde, 0xad, 0xbe, 0xef] && ServiceID([]) == [0xff, 0xfe]
    ensures Addr4([]) == [100, 64, 1, 2]
    ensures Addr6([]) ==
            [0xfd, 0, 0x68, 0x79, 0x70, 0x72, 0x73, 0x70, 0x61, 0x63, 0x65, 0, 0xde, 0xad, 0xbe, 0xef]
    ensures ServiceAddr6([], []) ==
            [0xfd, 0, 0x68, 0x79, 0x70, 0x72, 0x73, 0x70, 0x73, 0x76, 0xde, 0xad, 0xbe, 0xef, 0xff, 0xfe]
  {
    assert NetID([]) == [0xde, 0xad, 0xbe, 0xef];
    assert Weighted([]) == [];
    assert ServiceID([]) == [0xff, 0xfe];
    assert Folds(ADDR4_SEEDS, []) == [1, 2];
  }

  /** One more byte of a peer ID changes one byte of the net ID and of the IPv4 address. */
  lemma NetIDSnoc(p: Bytes, b: bv8)
    ensures NetID(p + [b]) == NetID(p)[|p| % 4 := Xor(NetID(p)[|p| % 4], b)]
    ensures Addr4(p + [b]) == Addr4(p)[2 + |p| % 2 := Xor(Addr4(p)[2 + |p| % 2], b)]
  {
    FoldsSnoc(NET_SEEDS, p, b);
    FoldsSnoc(ADDR4_SEEDS, p, b);
  }

  /** The index of a byte is counted from zero and starts again after 255. */
  lemma IndexByteIs(i: nat)
    ensures IndexByte(i + 256) == IndexByte(i)
    ensures IndexByte(0) == 0 && IndexByte(1) == 1 && IndexByte(2) == 2 && IndexByte(3) == 3 && IndexByte(255) == 255
    ensures Times(7, 5) == 35 && Times(3, 100) == 44
  {
    assert (i + 256) % 256 == i % 256;
  }

  /** One more byte of a service name, multiplied by its index, changes one byte of the service ID. */
  lemma ServiceIDSnoc(name: Bytes, b: bv8)
    ensures ServiceID(name + [b]) ==
            ServiceID(name)[|name| % 2 := Xor(ServiceID(name)[|name| % 2], Times(b, IndexByte(|name|)))]
  {
    assert Weighted(name + [b]) == Weighted(name) + [Times(b, IndexByte(|name|))];
    FoldsSnoc(SERVICE_SEEDS, Weighted(name), Times(b, IndexByte(|name|)));
  }

  // Net IDs determine the addresses

  ghost predicate Assoc<T(!new)>(op: (T, T) -> T) {
    forall a, b, c :: op(op(a, b), c) == op(a, op(b, c))
  }

  ghost predicate Comm<T(!new)>(op: (T, T) -> T) {
    forall a, b :: op(a, b) == op(b, a)
  }

  ghost predicate Shuffles<T(!new)>(op: (T, T) -> T) {
    forall c, a, b, x {:trigger op(op(op(c, a), b), x)} ::
      op(op(op(c, a), b), x) == op(op(c, op(a, x)), b) == op(op(c, a), op(b, x))
  }

  /** An element may be combined into either of two lanes before they are combined. */
  lemma Shuffle<T(!new)>(op: (T, T) -> T, c: T, a: T, b: T, x: T)
    requires Assoc(op) && Comm(op)
    ensures op(op(op(c, a), b), x) == op(op(c, op(a, x)), b)
    ensures op(op(op(c, a), b), x) == op(op(c, a), op(b, x))
  {
    calc {
      op(op(op(c, a), b), x);
      op(op(c, a), op(b, x));
      op(op(c, a), op(x, b));
      op(op(op(c, a), x), b);
      op(op(c, op(a, x)), b);
    }
  }

  /** Folding by two is folding by four and then combining the lanes. */
  lemma {:induction false} FoldsMerge<T(!new)>(op: (T, T) -> T, c: T, a: T, b: T, p: seq<T>, k: nat)
    requires k < 2 && Shuffles(op)
    ensures Fold(op, op(op(c, a), b), p, 2, k) == op(op(c, Fold(op, a, p, 4, k)), Fold(op, b, p, 4, k + 2))
  {
    if p != [] {
      var n := |p| - 1;
      FoldsMerge(op, c, a, b, p[..n], k);
      Halves(n, k);
    }
  }

  lemma {:induction false} Halves(n: nat, k: nat)
    requires k < 2
    ensures n % 2 == k <==> n % 4 == k || n % 4 == k + 2
  {
    if n >= 4 {
      Halves(n - 4, k);
    }
  }

  lemma XorAssoc(a: bv8, b: bv8, c: bv8)
    ensures Xor(Xor(a, b), c) == Xor(a, Xor(b, c))
  {
  }

  lemma XorComm(a: bv8, b: bv8)
    ensures Xor(a, b) == Xor(b, a)
  {
  }

  lemma XorAssocAll()
    ensures Assoc(Xor)
  {
    forall a, b, c
      ensures Xor(Xor(a, b), c) == Xor(a, Xor(b, c))
    {
      XorAssoc(a, b, c);
    }
  }

  lemma XorCommAll()
    ensures Comm(Xor)
  {
    forall a, b
      ensures Xor(a, b) == Xor(b, a)
    {
      XorComm(a, b);
    }
  }

  lemma XorShuffles()
    ensures Shuffles(Xor)
  {
    XorAssocAll();
    XorCommAll();
    forall c, a, b, x
      ensures Xor(Xor(Xor(c, a), b), x) == Xor(Xor(c, Xor(a, x)), b) == Xor(Xor(c, a), Xor(b, x))
    {
      Shuffle(Xor, c, a, b, x);
    }
  }

  lemma XorFoldsMerge(c: bv8, a: bv8, b: bv8, p: Bytes, k: nat)
    requires k < 2
    ensures Fold(Xor, Xor(Xor(c, a), b), p, 2, k) == Xor(Xor(c, Fold(Xor, a, p, 4, k)), Fold(Xor, b, p, 4, k + 2))
  {
    XorShuffles();
    FoldsMerge(Xor, c, a, b, p, k);
  }

  lemma SeedsMerge()
    ensures Xor(Xor(0x61, 0xde), 0xbe) == 1
    ensures Xor(Xor(0x40, 0xad), 0xef) == 2
  {
  }

  /** The IPv4 address as a function of the net ID alone. */
  function Addr4Of(netId: Bytes): Bytes
    requires |netId| == 4
  {
    [100, 64, Xor(Xor(0x61, netId[0]), netId[2]), Xor(Xor(0x40, netId[1]), netId[3])]
  }

  /** For peer IDs of every length, the last two bytes of the IPv4 address are two XORs of the net ID. */
  lemma Addr4FromNetID(p: Bytes)
    ensures Addr4(p) == Addr4Of(NetID(p))
  {
    SeedsMerge();
    XorFoldsMerge(0x61, 0xde, 0xbe, p, 0);
    XorFoldsMerge(0x40, 0xad, 0xef, p, 1);
  }

  /** Peers told apart by IPv4 address are told apart by net ID and by IPv6 address. */
  lemma DistinctAddr4(p: Bytes, q: Bytes)
    ensures Addr4(p) != Addr4(q) ==> NetID(p) != NetID(q)
    ensures NetID(p) != NetID(q) <==> Addr6(p) != Addr6(q)
  {
    Addr4FromNetID(p);
    Addr4FromNetID(q);
    assert Addr6(p)[12..] == NetID(p) && Addr6(q)[12..] == NetID(q);
  }

  // When service IDs tell names apart

  ghost predicate Cancels<T(!new)>(op: (T, T) -> T) {
    && (forall x, a, b :: op(x, a) == op(x, b) ==> a == b)
    && (forall x, y, a :: op(x, a) == op(y, a) ==> x == y)
  }

  /** Two sequences that differ in one place fold to different lanes. */
  lemma {:induction false} OnePlaceTells<T(!new)>(op: (T, T) -> T, seed: T, u: seq<T>, v: seq<T>, m: nat, i: nat)
    requires m > 0 && Cancels(op) && i < |u| == |v| && u[i] != v[i]
    requires forall j :: 0 <= j < |u| && j != i ==> u[j] == v[j]
    ensures Fold(op, seed, u, m, i % m) != Fold(op, seed, v, m, i % m)
  {
    var n := |u| - 1;
    if n == i {
      assert u[..n] == v[..n];
    } else {
      OnePlaceTells(op, seed, u[..n], v[..n], m, i);
    }
  }

  lemma XorCancel(x: bv8, a: bv8, b: bv8)
    ensures Xor(x, a) == Xor(x, b) ==> a == b
    ensures Xor(a, x) == Xor(b, x) ==> a == b
  {
  }

  lemma XorCancels()
    ensures Cancels(Xor)
  {
    forall x, a, b
      ensures Xor(x, a) == Xor(x, b) ==> a == b
      ensures Xor(a, x) == Xor(b, x) ==> a == b
    {
      XorCancel(x, a, b);
    }
  }

  /**
   * Two service names that differ in one place have the same ID if and only if the byte product with
   * the index makes the two bytes equal there.
   */
  lemma ServiceIDsAgree(pre: Bytes, b: bv8, c: bv8, rest: Bytes)
    ensures ServiceID(pre + [b] + rest) == ServiceID(pre + [c] + rest) <==>
            Times(b, IndexByte(|pre|)) == Times(c, IndexByte(|pre|))
  {
    var i := |pre|;
    var u, v := Weighted(pre + [b] + rest), Weighted(pre + [c] + rest);
    assert u[i] == Times(b, IndexByte(i)) && v[i] == Times(c, IndexByte(i));
    assert forall j :: 0 <= j < |u| && j != i ==> u[j] == v[j];
    if u[i] == v[i] {
      assert u == v;
    } else {
      XorCancels();
      OnePlaceTells(Xor, SERVICE_SEEDS[i % 2], u, v, 2, i);
      assert ServiceID(pre + [b] + rest)[i % 2] != ServiceID(pre + [c] + rest)[i % 2];
    }
  }

  /** How many times an index byte can be halved. */
  function Zeros(k: bv8): nat
    requires k != 0
    decreases k
  {
    if k & 1 == 1 then 0 else 1 + Zeros(k >> 1)
  }

  /** A byte shifted to the left, losing a high bit at every step. */
  function Shifted(b: bv8, t: nat): bv8
    decreases t
  {
    if t == 0 then b else Shifted(b + b, t - 1)
  }

  /**
   * What the product loses: everything at the index byte zero, and otherwise as many high bits as the
   * index byte can be halved; so nothing when it is odd, and three bits at eight.
   */
  lemma ProductTells(b: bv8, c: bv8, k: bv8)
    ensures k == 0 ==> Times(b, k) == Times(c, k)
    ensures k != 0 ==> (Times(b, k) == Times(c, k) <==> Shifted(b, Zeros(k)) == Shifted(c, Zeros(k)))
    ensures k & 1 == 1 ==> (Times(b, k) == Times(c, k) <==> b == c)
    ensures k == 8 ==> (Times(b, k) == Times(c, k) <==> b & 0x1f == c & 0x1f)
  {
    if k == 0 {
      TimesZero(b);
      TimesZero(c);
    } else {
      HalvesTell(b, c, k);
      if k == 8 {
        TimesEight(b, c);
      }
    }
  }

  lemma {:induction false} HalvesTell(b: bv8, c: bv8, k: bv8)
    requires k != 0
    ensures Times(b, k) == Times(c, k) <==> Shifted(b, Zeros(k)) == Shifted(c, Zeros(k))
    decreases k
  {
    if k & 1 == 1 {
      if Times(b, k) == Times(c, k) {
        OddTells(b, c, k, Times(b, k));
      }
    } else {
      var h := k >> 1;
      HalfOf(k);
      TimesHalf(b, h, k);
      TimesHalf(c, h, k);
      HalvesTell(b + b, c + c, h);
    }
  }

  lemma HalfOf(k: bv8)
    requires k != 0 && k & 1 == 0
    ensures k >> 1 != 0 && k == (k >> 1) + (k >> 1)
  {
  }

  lemma TimesHalf(b: bv8, h: bv8, k: bv8)
    requires k == h + h
    ensures Times(b, k) == Times(b + b, h)
  {
    TimesDouble(b, h);
  }

  lemma TimesDouble(b: bv8, h: bv8)
    ensures b * (h + h) == (b + b) * h
  {
  }

  lemma OddTells(b: bv8, c: bv8, k: bv8, x: bv8)
    requires k & 1 == 1 && x == b * k && x == c * k
    ensures b == c
  {
    var r := Reciprocal(k);
    TimesBack(b, k, r, x);
    TimesBack(c, k, r, x);
  }

  lemma Reciprocal(k: bv8) returns (r: bv8)
    requires k & 1 == 1
    ensures k * r == 1
  {
    r := k * (2 - k * k);
    r := r * (2 - k * r);
  }

  lemma TimesBack(b: bv8, k: bv8, r: bv8, x: bv8)
    requires k * r == 1 && x == b * k
    ensures Times(x, r) == b
  {
    TimesUndone(b, k, r);
  }

  lemma TimesUndone(b: bv8, k: bv8, r: bv8)
    requires k * r == 1
    ensures (b * k) * r == b
  {
    assert (b * k) * r == b * (k * r);
  }

  lemma TimesEight(b: bv8, c: bv8)
    ensures Times(b, 8) == Times(c, 8) <==> b & 0x1f == c & 0x1f
  {
  }

  lemma TimesZero(b: bv8)
    ensures Times(b, 0) == 0
  {
  }

  /** The first byte of a service name never tells two services apart. */
  lemma FirstByteIgnored(b: bv8, c: bv8, rest: Bytes)
    ensures ServiceID([b] + rest) == ServiceID([c] + rest)
  {
    ServiceIDsAgree([], b, c, rest);
    TimesZero(b);
    TimesZero(c);
    assert [] + [b] + rest == [b] + rest && [] + [c] + rest == [c] + rest;
  }

  /** Names whose ninth letters differ in case only: the letters "a" and "A" share an ID there. */
  lemma CaseIgnoredAtEight(pre: Bytes, rest: Bytes)
    requires |pre| == 8
    ensures ServiceID(pre + [0x61] + rest) == ServiceID(pre + [0x41] + rest)
  {
    ServiceIDsAgree(pre, 0x61, 0x41, rest);
    TimesEight(0x61, 0x41);
  }

  // Networks

  datatype IPNet = IPNet(ip: Bytes, mask: Bytes)

  function MaskByte(ones: nat, i: nat): bv8 {
    if 8 * (i + 1) <= ones then 0xff
    else if ones <= 8 * i then 0
    else !((0xff as bv8) >> (ones - 8 * i))
  }

  function CIDRMask(ones: nat, bits: nat): Bytes {
    seq(bits / 8, i requires 0 <= i => MaskByte(ones, i))
  }

  /** A mask is its number of one bits and then zeros. */
  lemma MaskIs(ones: nat, i: nat)
    ensures ones <= 8 * i ==> MaskByte(ones, i) == 0
    ensures 8 * i + 8 <= ones ==> MaskByte(ones, i) == 0xff
    ensures ones == 8 * i + 1 ==> MaskByte(ones, i) == 0x80
    ensures ones == 8 * i + 2 ==> MaskByte(ones, i) == 0xc0
    ensures ones == 8 * i + 3 ==> MaskByte(ones, i) == 0xe0
    ensures ones == 8 * i + 4 ==> MaskByte(ones, i) == 0xf0
    ensures ones == 8 * i + 5 ==> MaskByte(ones, i) == 0xf8
    ensures ones == 8 * i + 6 ==> MaskByte(ones, i) == 0xfc
    ensures ones == 8 * i + 7 ==> MaskByte(ones, i) == 0xfe
  {
  }

  predicate SameUnder(mask: bv8, a: bv8, b: bv8) {
    a & mask == b & mask
  }

  predicate Contains(n: IPNet, ip: Bytes) {
    |ip| == |n.ip| == |n.mask| && forall i :: 0 <= i < |ip| ==> SameUnder(n.mask[i], n.ip[i], ip[i])
  }

  lemma WholeByteMask(mask: bv8, a: bv8, b: bv8)
    ensures SameUnder(0xff, a, b) <==> a == b
    ensures SameUnder(0, a, b)
  {
  }

  /** Under a mask of whole bytes, a network contains the addresses that share its first bytes. */
  lemma ContainsPrefix(base: Bytes, k: nat, ip: Bytes)
    requires k <= |base|
    ensures Contains(IPNet(base, CIDRMask(8 * k, 8 * |base|)), ip) <==> |ip| == |base| && ip[..k] == base[..k]
  {
    var mask := CIDRMask(8 * k, 8 * |base|);
    if |ip| == |base| {
      forall i | 0 <= i < |ip|
        ensures SameUnder(mask[i], base[i], ip[i]) <==> (i < k ==> base[i] == ip[i])
      {
        assert mask[i] == if i < k then 0xff else 0;
        WholeByteMask(mask[i], base[i], ip[i]);
      }
      assert ip[..k] == base[..k] <==> forall i :: 0 <= i < k ==> ip[i] == base[i];
    }
  }

  const NETWORK_RANGE: IPNet := IPNet(SERVICE_PREFIX + [0, 0, 0, 0, 0, 0], CIDRMask(80, 128))

  /** The network routed for the services of one peer. */
  function ServiceRoute(p: Bytes): IPNet {
    IPNet(SERVICE_PREFIX + NetID(p) + [0, 0], CIDRMask(112, 128))
  }

  /** One service route for every configured peer, and one for this node. */
  method ServiceRoutes(peers: seq<Bytes>, self: Bytes) returns (routes: seq<IPNet>)
    ensures |routes| == |peers| + 1 && routes[|peers|] == ServiceRoute(self)
    ensures forall i :: 0 <= i < |peers| ==> routes[i] == ServiceRoute(peers[i])
  {
    routes := [];
    var all := peers + [self];
    for i := 0 to |all|
      invariant |routes| == i && forall j :: 0 <= j < i ==> routes[j] == ServiceRoute(all[j])
    {
      var netId := MkNetID(all[i]);
      var addr := NETWORK_RANGE.ip[..10] + netId[..] + NETWORK_RANGE.ip[14..];
      assert NETWORK_RANGE.ip[..10] == SERVICE_PREFIX && NETWORK_RANGE.ip[14..] == [0, 0];
      routes := routes + [IPNet(addr, CIDRMask(80 + 32, 128))];
    }
  }

  /**
   * A service address carries the net ID of its peer and the ID of its service, lies in the service
   * range and in the network routed for a peer exactly when that peer has the same net ID; addresses
   * of peers themselves never lie in the service range.
   */
  lemma ServiceAddress(p: Bytes, name: Bytes, q: Bytes)
    ensures var a := ServiceAddr6(p, name);
            && |a| == 16 && a[10..14] == NetID(p) && a[14..16] == ServiceID(name)
            && Contains(NETWORK_RANGE, a)
            && (Contains(ServiceRoute(q), a) <==> NetID(q) == NetID(p))
            && !Contains(NETWORK_RANGE, Addr6(q))
  {
    ServiceParts(p, name);
    ContainsPrefix(NETWORK_RANGE.ip, 10, ServiceAddr6(p, name));
    RouteContains(p, name, q);
    BuiltinOutside(q);
  }

  lemma BuiltinOutside(q: Bytes)
    ensures !Contains(NETWORK_RANGE, Addr6(q))
  {
    assert CIDRMask(80, 128)[8] == 0xff;
    WholeByteMask(0xff, NETWORK_RANGE.ip[8], Addr6(q)[8]);
    assert Addr6(q)[8] == 0x61 && NETWORK_RANGE.ip[8] == 0x73;
  }

  lemma ServiceParts(p: Bytes, name: Bytes)
    ensures var a := ServiceAddr6(p, name);
            && |a| == 16 && a[..10] == SERVICE_PREFIX == NETWORK_RANGE.ip[..10]
            && a[10..14] == NetID(p) && a[14..16] == ServiceID(name) && a[..14] == SERVICE_PREFIX + NetID(p)
  {
    var front, id, sv := SERVICE_PREFIX, NetID(p), ServiceID(name);
    assert |front| == 10 && |id| == 4 && |sv| == 2;
    assert (front + id + sv)[..10] == front;
    assert NETWORK_RANGE.ip[..10] == front;
  }

  lemma RouteContains(p: Bytes, name: Bytes, q: Bytes)
    ensures Contains(ServiceRoute(q), ServiceAddr6(p, name)) <==> NetID(q) == NetID(p)
  {
    ServiceParts(p, name);
    var route := SERVICE_PREFIX + NetID(q) + [0, 0];
    ContainsPrefix(route, 14, ServiceAddr6(p, name));
    assert route[..14] == SERVICE_PREFIX + NetID(q);
    assert (SERVICE_PREFIX + NetID(p))[10..] == NetID(p) && (SERVICE_PREFIX + NetID(q))[10..] == NetID(q);
  }
}
