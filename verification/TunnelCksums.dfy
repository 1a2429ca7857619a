/** Rewriting checksums in software, inner headers first and then the outer ones, as the checksum
    forwarding engine does without any hardware offload.
  */
module TunnelCksums {
  import opened OnesComplement
  import opened Checksums

  const TCP: nat := 6
  const UDP: nat := 17
  const SCTP: nat := 132

  /** An IP header: where it starts, its version and its length. */
  datatype L3 = L3(at: nat, v4: bool, hlen: nat)

  function End(l: L3): nat { l.at + l.hlen }

  /** A 16-bit field in network order. */
  function Field(s: seq<byte>, at: nat): nat
    requires at + 2 <= |s|
  {
    s[at] as nat * 0x100 + s[at + 1] as nat
  }

  /** A host word stored at an address. */
  function Put(s: seq<byte>, at: nat, w: word): (r: seq<byte>)
    requires at + 2 <= |s|
    ensures |r| == |s|
  {
    s[at := w % 0x100][at + 1 := w / 0x100]
  }

  function Get(s: seq<byte>, at: nat): word
    requires at + 2 <= |s|
  {
    Word(s[at], s[at + 1])
  }

  /** The length the checksum routines take for what follows the IP header: total length minus 20,
      whatever the length of the header; or the payload length. */
  function TakenLen(s: seq<byte>, l: L3): int
    requires l.at + 20 <= |s|
  {
    if l.v4 then Field(s, l.at + 2) - 20 else Field(s, l.at + 4)
  }

  /** The length of what really follows the IP header. */
  function RealLen(s: seq<byte>, l: L3): int
    requires l.at + 20 <= |s|
  {
    if l.v4 then Field(s, l.at + 2) - l.hlen else Field(s, l.at + 4)
  }

  /** The header is there, and what is summed behind it lies in the packet buffer. */
  predicate HeaderOk(s: seq<byte>, l: L3) {
    && (if l.v4 then 20 <= l.hlen <= 60 && l.hlen % 4 == 0 else l.hlen == 40)
    && End(l) <= |s|
    && 0 <= RealLen(s, l) <= TakenLen(s, l) && End(l) + TakenLen(s, l) <= |s|
    && (l.v4 ==> s[l.at] != 0)
  }

  /** The bytes of the pseudo-header for a length. */
  function Pseudo(s: seq<byte>, l: L3, len: nat): seq<byte>
    requires End(l) <= |s| && l.hlen >= (if l.v4 then 20 else 40) && len < 0x1_0000
  {
    if l.v4 then s[l.at + 12..l.at + 20] + [0, s[l.at + 9]] + [len / 0x100, len % 0x100]
    else s[l.at + 8..l.at + 40] + [len / 0x100, len % 0x100, 0, 0] + [0, 0, 0, s[l.at + 6]]
  }

  function Segment(s: seq<byte>, l: L3, len: nat): seq<byte>
    requires End(l) + len <= |s|
  {
    s[End(l)..End(l) + len]
  }

  /** The sum a receiver checks for a transport segment of a length. */
  function L4Sum(s: seq<byte>, l: L3, len: nat): nat
    requires End(l) + len <= |s| && l.hlen >= (if l.v4 then 20 else 40) && len < 0x1_0000
  {
    SumBytes(Pseudo(s, l, len)) + SumBytes(Segment(s, l, len))
  }

  ghost predicate IpVerifies(s: seq<byte>, l: L3)
    requires End(l) <= |s|
  {
    Verifies(SumBytes(s[l.at..End(l)]))
  }

  ghost predicate L4Verifies(s: seq<byte>, l: L3)
    requires HeaderOk(s, l)
  {
    Verifies(L4Sum(s, l, RealLen(s, l)))
  }

  // ----- the IPv4 header -----

  function IpCksum(s: seq<byte>, l: L3): word
    requires HeaderOk(s, l) && l.v4
  {
    NonZero(Complement(Fold(SumBytes(Put(s, l.at + 10, 0)[l.at..l.at + 20]))))
  }

  function FixIp(s: seq<byte>, l: L3): (r: seq<byte>)
    requires HeaderOk(s, l) && l.v4
    ensures |r| == |s|
  {
    Put(s, l.at + 10, IpCksum(s, l))
  }

  /** The sum of a slice whose word at an even place is replaced. */
  lemma PutSum(s: seq<byte>, at: nat, w: word, lo: nat, hi: nat)
    requires lo <= at && at + 2 <= hi <= |s| && (at - lo) % 2 == 0
    ensures SumBytes(Put(s, at, w)[lo..hi]) + Get(s, at) == SumBytes(s[lo..hi]) + w
  {
    var b: seq<byte>, i: nat := s[lo..hi], at - lo;
    var x: byte, y: byte := w % 0x100, w / 0x100;
    SumPatch(b, i, x, y);
    assert Put(s, at, w)[lo..hi] == b[i := x][i + 1 := y];
  }

  lemma PutOutside(s: seq<byte>, at: nat, w: word, lo: nat, hi: nat)
    requires at + 2 <= |s| && lo <= hi <= |s| && (at + 2 <= lo || hi <= at)
    ensures Put(s, at, w)[lo..hi] == s[lo..hi]
  {}

  lemma GetPut(s: seq<byte>, at: nat, w: word)
    requires at + 2 <= |s|
    ensures Get(Put(s, at, w), at) == w
  {}

  lemma PutPut(s: seq<byte>, at: nat, v: word, w: word)
    requires at + 2 <= |s|
    ensures Put(Put(s, at, v), at, w) == Put(s, at, w)
  {}

  /** A complemented sum makes a multiple of 0xFFFF, also when zero is stored as 0xFFFF. */
  lemma NonZeroMultiple(rest: nat)
    ensures (rest + NonZero(Complement(Fold(rest)))) % 0xFFFF == 0
  {
    hide Fold;
    if rest > 0 {
      var c := Complement(Fold(rest));
      ComplementVerifies(rest);
      VerifiesIff(rest + c);
      MultipleVanishes(rest + c, 1);
    }
  }

  lemma NonZeroVerifies(rest: nat)
    requires rest > 0
    ensures (rest + NonZero(Complement(Fold(rest)))) % 0xFFFF == 0
    ensures Verifies(rest + NonZero(Complement(Fold(rest))))
  {
    hide Fold;
    NonZeroMultiple(rest);
    VerifiesIff(rest + NonZero(Complement(Fold(rest))));
  }

  lemma {:induction false} Positive(b: seq<byte>, k: nat)
    requires k < |b| && b[k] != 0
    ensures SumBytes(b) > 0
    decreases |b|
  {
    if |b| >= 2 && k >= 2 {
      Positive(b[2..], k - 2);
    }
  }

  /** Only the first 20 bytes are summed: the whole header verifies exactly when its options add up
      to nothing. */
  lemma FixIpVerifiesIff(s: seq<byte>, l: L3)
    requires HeaderOk(s, l) && l.v4
    ensures IpVerifies(FixIp(s, l), l) <==> SumBytes(s[l.at + 20..End(l)]) % 0xFFFF == 0
  {
    hide SumBytes, Fold, Put, Get, Complement, NonZero;
    var z := Put(s, l.at + 10, 0);
    var rest := SumBytes(z[l.at..l.at + 20]);
    Positive(z[l.at..l.at + 20], 0) by {
      FirstByteKept(s, l.at);
    }
    NonZeroVerifies(rest);
    var c := IpCksum(s, l);
    PutPut(s, l.at + 10, 0, c);
    GetPut(s, l.at + 10, 0);
    PutSum(z, l.at + 10, c, l.at, l.at + 20);
    var g := FixIp(s, l);
    PutOutside(s, l.at + 10, c, l.at + 20, End(l));
    assert g[l.at..End(l)] == g[l.at..l.at + 20] + g[l.at + 20..End(l)];
    SumConcat(g[l.at..l.at + 20], g[l.at + 20..End(l)]);
    VerifiesIff(SumBytes(g[l.at..End(l)]));
    ZeroPlus(rest + c, SumBytes(s[l.at + 20..End(l)]));
  }

  lemma FirstByteKept(s: seq<byte>, at: nat)
    requires at + 20 <= |s|
    ensures Put(s, at + 10, 0)[at..at + 20][0] == s[at]
  {}

  lemma ZeroPlus(a: nat, b: nat)
    requires a % 0xFFFF == 0
    ensures (a + b) % 0xFFFF == b % 0xFFFF
  {
    MultipleVanishes(b, a / 0xFFFF);
  }

  // ----- TCP and UDP -----

  /** Where a transport header keeps its checksum. */
  function FieldAt(proto: nat): nat { if proto == UDP then 6 else 16 }

  ghost predicate SegmentOk(s: seq<byte>, l: L3, proto: nat) {
    HeaderOk(s, l) && (proto == UDP || proto == TCP) && FieldAt(proto) + 2 <= RealLen(s, l)
    && s[l.at + (if l.v4 then 9 else 6)] as nat == proto
  }

  function L4Cksum(s: seq<byte>, l: L3, proto: nat): word
    requires HeaderOk(s, l) && FieldAt(proto) + 2 <= RealLen(s, l)
  {
    NonZero(Complement(Fold(L4Sum(Put(s, End(l) + FieldAt(proto), 0), l, TakenLen(s, l)))))
  }

  function FixL4(s: seq<byte>, l: L3, proto: nat): (r: seq<byte>)
    requires HeaderOk(s, l) && FieldAt(proto) + 2 <= RealLen(s, l)
    ensures |r| == |s|
  {
    Put(s, End(l) + FieldAt(proto), L4Cksum(s, l, proto))
  }

  /** Two lengths a segment is summed over give the same up to a multiple of 0xFFFF. */
  ghost predicate SameSum(s: seq<byte>, l: L3)
    requires HeaderOk(s, l)
  {
    L4Sum(s, l, TakenLen(s, l)) % 0xFFFF == L4Sum(s, l, RealLen(s, l)) % 0xFFFF
  }

  /** A header without options leaves nothing to differ. */
  lemma SameSumWithoutOptions(s: seq<byte>, l: L3)
    requires HeaderOk(s, l) && (l.v4 ==> l.hlen == 20)
    ensures SameSum(s, l)
  {}

  lemma PutL4Sum(s: seq<byte>, l: L3, at: nat, w: word, len: nat)
    requires l.hlen >= (if l.v4 then 20 else 40) && End(l) + len <= |s| && len < 0x1_0000
    requires End(l) <= at && at + 2 <= End(l) + len && (at - End(l)) % 2 == 0
    ensures L4Sum(Put(s, at, w), l, len) + Get(s, at) == L4Sum(s, l, len) + w
  {
    hide SumBytes, Get;
    PutSum(s, at, w, End(l), End(l) + len);
    assert Pseudo(Put(s, at, w), l, len) == Pseudo(s, l, len) by {
      hide Word;
      PutOutside(s, at, w, l.at + 12, l.at + 20);
      if !l.v4 {
        PutOutside(s, at, w, l.at + 8, l.at + 40);
      }
    }
  }

  lemma PseudoPositive(s: seq<byte>, l: L3, proto: nat, len: nat)
    requires SegmentOk(s, l, proto) && len < 0x1_0000
    ensures SumBytes(Pseudo(s, l, len)) > 0
  {
    hide SumBytes;
    var p := Pseudo(s, l, len);
    if l.v4 {
      Positive(p, 9);
    } else {
      Positive(p, 39);
    }
  }

  /** Writes behind a header leave its lengths alone. */
  lemma PutKeepsHeader(s: seq<byte>, l: L3, at: nat, w: word)
    requires HeaderOk(s, l) && at + 2 <= |s| && End(l) <= at
    ensures HeaderOk(Put(s, at, w), l) && RealLen(Put(s, at, w), l) == RealLen(s, l)
    ensures TakenLen(Put(s, at, w), l) == TakenLen(s, l)
  {}

  /** The segment verifies exactly when the length taken for it does not matter. */
  lemma FixL4VerifiesIff(s: seq<byte>, l: L3, proto: nat)
    requires SegmentOk(s, l, proto)
    ensures HeaderOk(FixL4(s, l, proto), l)
    ensures L4Verifies(FixL4(s, l, proto), l) <==> SameSum(s, l)
  {
    hide SumBytes, Fold, Put, Get, Complement, NonZero, L4Sum, Word;
    var at, c := End(l) + FieldAt(proto), L4Cksum(s, l, proto);
    var z, g := Put(s, at, 0), FixL4(s, l, proto);
    var taken, actual := TakenLen(s, l), RealLen(s, l);
    PutKeepsHeader(s, l, at, 0);
    PutKeepsHeader(s, l, at, c);
    PutL4Sum(s, l, at, 0, taken);
    PutL4Sum(s, l, at, c, taken);
    PutL4Sum(s, l, at, 0, actual);
    PutL4Sum(s, l, at, c, actual);
    SumPositive(z, l, proto, taken) by {
      ProtoKept(s, l, at, proto);
    }
    SumPositive(g, l, proto, actual) by {
      KeptByFix(s, l, at, c, proto);
    }
    NonZeroVerifies(L4Sum(z, l, taken));
    VerifiesIff(L4Sum(g, l, actual));
    Differences(L4Sum(s, l, taken), L4Sum(s, l, actual), L4Sum(g, l, taken), L4Sum(g, l, actual));
  }

  lemma ProtoKept(s: seq<byte>, l: L3, at: nat, proto: nat)
    requires SegmentOk(s, l, proto) && End(l) <= at && at + 2 <= |s|
    ensures SegmentOk(Put(s, at, 0), l, proto)
  {}

  lemma KeptByFix(s: seq<byte>, l: L3, at: nat, c: word, proto: nat)
    requires SegmentOk(s, l, proto) && End(l) <= at && at + 2 <= |s|
    ensures SegmentOk(Put(s, at, c), l, proto)
  {}

  lemma SumPositive(s: seq<byte>, l: L3, proto: nat, len: nat)
    requires SegmentOk(s, l, proto) && len < 0x1_0000 && End(l) + len <= |s|
    ensures L4Sum(s, l, len) > 0
  {
    hide SumBytes;
    PseudoPositive(s, l, proto, len);
  }

  /** a and b grow by the same amount to c and d; c is a multiple: so is d exactly when a and b agree. */
  lemma Differences(a: nat, b: nat, c: nat, d: nat)
    requires c - a == d - b && c % 0xFFFF == 0
    ensures d % 0xFFFF == 0 <==> a % 0xFFFF == b % 0xFFFF
  {
    assert a == 0xFFFF * (a / 0xFFFF) + a % 0xFFFF && b == 0xFFFF * (b / 0xFFFF) + b % 0xFFFF;
    assert c == 0xFFFF * (c / 0xFFFF) && d == 0xFFFF * (d / 0xFFFF) + d % 0xFFFF;
  }

  lemma {:induction false} TrailingZeros(b: seq<byte>, z: seq<byte>)
    requires forall k :: 0 <= k < |z| ==> z[k] == 0
    ensures SumBytes(b + z) == SumBytes(b)
    decreases |b| + |z|
  {
    var whole := b + z;
    if |b| >= 2 {
      assert whole[2..] == b[2..] + z;
      TrailingZeros(b[2..], z);
    } else if z == [] {
      assert whole == b;
    } else if |b| == 1 {
      assert whole[2..] == [] + z[1..];
      TrailingZeros([], z[1..]);
    } else if |z| >= 2 {
      assert whole[2..] == [] + z[2..];
      TrailingZeros([], z[2..]);
    }
  }

  lemma PseudoLength(s: seq<byte>, l: L3, len: nat)
    requires End(l) <= |s| && l.v4 && l.hlen >= 20 && len < 0x1_0000
    ensures SumBytes(Pseudo(s, l, len))
         == SumBytes(s[l.at + 12..l.at + 20] + [0, s[l.at + 9]]) + len / 0x100 + 0x100 * (len % 0x100)
  {
    hide SumBytes;
    SumConcat(s[l.at + 12..l.at + 20] + [0, s[l.at + 9]], [len / 0x100, len % 0x100]);
    TwoBytes(len / 0x100, len % 0x100);
  }

  lemma TwoBytes(x: byte, y: byte)
    ensures SumBytes([x, y]) == x as nat + 0x100 * y as nat
  {
    assert [x, y][2..] == [];
  }

  /** With IP options the lengths differ: a segment followed by zeros never gets a valid checksum. */
  lemma OptionsMislead(s: seq<byte>, l: L3)
    requires HeaderOk(s, l) && l.v4 && l.hlen > 20
    requires forall p :: End(l) + RealLen(s, l) <= p < End(l) + TakenLen(s, l) ==> s[p] == 0
    ensures !SameSum(s, l)
  {
    hide SumBytes, Pseudo;
    var taken, actual := TakenLen(s, l), RealLen(s, l);
    PseudoLength(s, l, taken);
    PseudoLength(s, l, actual);
    var z := s[End(l) + actual..End(l) + taken];
    assert Segment(s, l, taken) == Segment(s, l, actual) + z;
    TrailingZeros(Segment(s, l, actual), z);
    var front := s[l.at + 12..l.at + 20] + [0, s[l.at + 9]];
    LengthsDiffer(SumBytes(front) + SumBytes(Segment(s, l, actual)), actual, taken);
  }

  lemma LengthsDiffer(x: nat, a: nat, b: nat)
    requires a < b <= a + 40
    ensures (x + a / 0x100 + 0x100 * (a % 0x100)) % 0xFFFF != (x + b / 0x100 + 0x100 * (b % 0x100)) % 0xFFFF
  {
    var d: nat := b - a;
    Swapping(x, a);
    Swapping(x, b);
    assert x + 0x100 * b == x + 0x100 * a + 0x100 * d;
  }

  lemma Swapping(x: nat, a: nat)
    ensures (x + a / 0x100 + 0x100 * (a % 0x100)) % 0xFFFF == (x + 0x100 * a) % 0xFFFF
  {
    MultipleVanishes(x + a / 0x100 + 0x100 * (a % 0x100), a / 0x100);
    assert x + 0x100 * a == x + a / 0x100 + 0x100 * (a % 0x100) + 0xFFFF * (a / 0x100);
  }

  /** A UDP datagram behind one word of IP options: neither checksum is right afterwards. */
  lemma OptionsPacket() returns (s: seq<byte>, l: L3)
    ensures l == L3(0, true, 24) && SegmentOk(s, l, UDP) && Get(s, End(l) + 6) != 0
    ensures !IpVerifies(FixIp(s, l), l)
    ensures HeaderOk(FixL4(s, l, UDP), l) && !L4Verifies(FixL4(s, l, UDP), l)
  {
    hide SumBytes, Verifies, L4Verifies, SameSum, FixIp, FixL4;
    l := L3(0, true, 24);
    s := [0x46, 0, 0, 32, 0, 0, 0, 0, 64, 17, 0, 0, 10, 0, 0, 1, 10, 0, 0, 2] + [1, 0] + [0, 0]
         + [0, 1, 0, 2, 0, 8, 0, 9] + [0, 0, 0, 0];
    assert s[20..24] == [1, 0] + [0, 0];
    TrailingZeros([1, 0], [0, 0]);
    TwoBytes(1, 0);
    FixIpVerifiesIff(s, l);
    OptionsMislead(s, l);
    FixL4VerifiesIff(s, l, UDP);
  }

  // ----- one layer, then the other -----

  /** What process_inner_cksums() makes of a packet whose inner header is IPv4 or IPv6. */
  function InnerDone(s: seq<byte>, l: L3, proto: nat): (r: seq<byte>)
    requires LayerOk(s, l, proto)
    ensures |r| == |s|
  {
    IpFixKeeps(s, l);
    var s1 := if l.v4 then FixIp(s, l) else s;
    if proto == UDP then if Get(s1, End(l) + 6) != 0 then FixL4(s1, l, UDP) else s1
    else if proto == TCP then FixL4(s1, l, TCP)
    else if proto == SCTP then Put(Put(s1, End(l) + 8, 0), End(l) + 10, 0)
    else s1
  }

  /** What process_outer_cksums() makes of it: the same without TCP and SCTP. */
  function OuterDone(s: seq<byte>, l: L3, proto: nat): (r: seq<byte>)
    requires LayerOk(s, l, proto)
    ensures |r| == |s|
  {
    IpFixKeeps(s, l);
    var s1 := if l.v4 then FixIp(s, l) else s;
    if proto == UDP && Get(s1, End(l) + 6) != 0 then FixL4(s1, l, UDP) else s1
  }

  /** The headers of a layer lie in the packet. */
  predicate LayerOk(s: seq<byte>, l: L3, proto: nat) {
    && HeaderOk(s, l)
    && (proto == UDP || proto == TCP ==> FieldAt(proto) + 2 <= RealLen(s, l))
    && (proto == SCTP ==> 12 <= RealLen(s, l))
  }

  /** Writing the header checksum changes nothing a segment is summed over. */
  lemma IpFixKeeps(s: seq<byte>, l: L3)
    requires HeaderOk(s, l)
    ensures l.v4 ==> HeaderOk(FixIp(s, l), l) && RealLen(FixIp(s, l), l) == RealLen(s, l)
    ensures l.v4 ==> TakenLen(FixIp(s, l), l) == TakenLen(s, l)
    ensures l.v4 ==> forall p :: 0 <= p < |s| && !(l.at + 10 <= p < l.at + 12) ==> FixIp(s, l)[p] == s[p]
  {
    hide Fold, SumBytes, Complement, NonZero;
  }

  lemma IpFixSums(s: seq<byte>, l: L3, len: nat)
    requires HeaderOk(s, l) && l.v4 && End(l) + len <= |s| && len < 0x1_0000
    ensures L4Sum(FixIp(s, l), l, len) == L4Sum(s, l, len)
  {
    hide SumBytes, FixIp;
    IpFixKeeps(s, l);
    assert Segment(FixIp(s, l), l, len) == Segment(s, l, len);
    assert Pseudo(FixIp(s, l), l, len) == Pseudo(s, l, len) by {
      assert FixIp(s, l)[l.at + 12..l.at + 20] == s[l.at + 12..l.at + 20];
    }
  }

  /** A packet from an address on: what lies below does not matter to its headers. */
  lemma FromHere(s: seq<byte>, r: seq<byte>, l: L3)
    requires |s| == |r| && HeaderOk(s, l) && forall p :: l.at <= p < |s| ==> s[p] == r[p]
    ensures HeaderOk(r, l) && RealLen(r, l) == RealLen(s, l) && TakenLen(r, l) == TakenLen(s, l)
    ensures IpVerifies(s, l) <==> IpVerifies(r, l)
    ensures L4Verifies(s, l) <==> L4Verifies(r, l)
  {
    hide SumBytes, Verifies;
    assert s[l.at..End(l)] == r[l.at..End(l)];
    var len := RealLen(s, l);
    assert Segment(s, l, len) == Segment(r, l, len);
    if l.v4 {
      assert s[l.at + 12..l.at + 20] == r[l.at + 12..l.at + 20];
    } else {
      assert s[l.at + 8..l.at + 40] == r[l.at + 8..l.at + 40];
    }
    assert Pseudo(s, l, len) == Pseudo(r, l, len);
  }

  /** A byte of a checksum: of the IPv4 header, of UDP, of TCP, of SCTP. */
  ghost predicate CksumByte(l: L3, proto: nat, p: int) {
    || (l.v4 && 10 <= p - l.at < 12)
    || (proto == 17 && 6 <= p - l.at - l.hlen < 8)
    || (proto == 6 && 16 <= p - l.at - l.hlen < 18)
    || (proto == 132 && 8 <= p - l.at - l.hlen < 12)
  }

  /** The checksums of a layer are all that is written; the inner one of SCTP is cleared, the outer
      ones of TCP and SCTP stay. */
  lemma OnlyChecksums(s: seq<byte>, l: L3, proto: nat, r: seq<byte>, inner: bool)
    requires LayerOk(s, l, proto) && r == if inner then InnerDone(s, l, proto) else OuterDone(s, l, proto)
    ensures forall p :: 0 <= p < |s| && !CksumByte(l, if inner || proto == 17 then proto else 0, p) ==> r[p] == s[p]
    ensures inner && proto == 132 ==> forall p :: 8 <= p - l.at - l.hlen < 12 ==> r[p] == 0
  {
    hide SumBytes, IpCksum, L4Cksum;
    IpFixKeeps(s, l);
  }

  ghost predicate Checked(s: seq<byte>, l: L3, proto: nat)
    requires HeaderOk(s, l) && (proto == UDP || proto == TCP ==> FieldAt(proto) + 2 <= RealLen(s, l))
  {
    proto == TCP || (proto == UDP && Get(s, End(l) + 6) != 0)
  }

  /** What follows the header is a segment of the protocol it names, if that is TCP or UDP. */
  ghost predicate CarriesOk(s: seq<byte>, l: L3, proto: nat) {
    LayerOk(s, l, proto) && (proto == UDP || proto == TCP ==> SegmentOk(s, l, proto))
  }

  /** One layer: the IPv4 header verifies exactly when its options add up to nothing, and a segment
      with a checksum exactly when its length is taken right; a zero UDP checksum stays zero. */
  lemma LayerVerifiesIff(s: seq<byte>, l: L3, proto: nat, r: seq<byte>)
    requires CarriesOk(s, l, proto)
    requires r == InnerDone(s, l, proto) || (proto == UDP && r == OuterDone(s, l, proto))
    ensures LayerOk(r, l, proto)
    ensures l.v4 ==> (IpVerifies(r, l) <==> SumBytes(s[l.at + 20..End(l)]) % 0xFFFF == 0)
    ensures Checked(s, l, proto) ==> (L4Verifies(r, l) <==> SameSum(s, l))
    ensures proto == UDP && Get(s, End(l) + 6) == 0 ==> Get(r, End(l) + 6) == 0
    ensures forall p :: 0 <= p < l.at ==> r[p] == s[p]
  {
    hide SumBytes, Verifies, FixIp, Word, L4Sum, L4Cksum, FixL4, IpVerifies, L4Verifies, SameSum, SegmentOk, HeaderOk;
    IpFixKeeps(s, l);
    if proto == UDP || proto == TCP {
      SegmentLayer(s, l, proto, r);
    } else {
      OtherLayer(s, l, proto);
    }
  }

  lemma SegmentLayer(s: seq<byte>, l: L3, proto: nat, r: seq<byte>)
    requires LayerOk(s, l, proto) && (proto == UDP || proto == TCP) && SegmentOk(s, l, proto)
    requires r == InnerDone(s, l, proto) || (proto == UDP && r == OuterDone(s, l, proto))
    ensures LayerOk(r, l, proto)
    ensures l.v4 ==> (IpVerifies(r, l) <==> SumBytes(s[l.at + 20..End(l)]) % 0xFFFF == 0)
    ensures Checked(s, l, proto) ==> (L4Verifies(r, l) <==> SameSum(s, l))
    ensures proto == UDP && Get(s, End(l) + 6) == 0 ==> Get(r, End(l) + 6) == 0
    ensures forall p :: 0 <= p < l.at ==> r[p] == s[p]
  {
    hide SumBytes, Verifies, FixIp, Word, L4Sum, L4Cksum;
    var at := End(l) + FieldAt(proto);
    IpFixKeeps(s, l);
    var s1 := if l.v4 then FixIp(s, l) else s;
    if l.v4 {
      FixIpVerifiesIff(s, l);
      IpFixSums(s, l, TakenLen(s, l));
      IpFixSums(s, l, RealLen(s, l));
    }
    assert Get(s1, End(l) + 6) == Get(s, End(l) + 6);
    if proto == TCP || Get(s1, End(l) + 6) != 0 {
      FixL4VerifiesIff(s1, l, proto);
      PutKeepsHeader(s1, l, at, L4Cksum(s1, l, proto));
      PutOutside(s1, at, L4Cksum(s1, l, proto), l.at, End(l));
    }
  }

  /** Of SCTP the checksum is cleared, of any other protocol nothing is written. */
  lemma OtherLayer(s: seq<byte>, l: L3, proto: nat)
    requires LayerOk(s, l, proto) && proto != UDP && proto != TCP
    ensures LayerOk(InnerDone(s, l, proto), l, proto)
    ensures l.v4 ==> (IpVerifies(InnerDone(s, l, proto), l) <==> SumBytes(s[l.at + 20..End(l)]) % 0xFFFF == 0)
    ensures forall p :: 0 <= p < l.at ==> InnerDone(s, l, proto)[p] == s[p]
  {
    hide SumBytes, Verifies, FixIp, Put;
    IpFixKeeps(s, l);
    var s1 := if l.v4 then FixIp(s, l) else s;
    if l.v4 {
      FixIpVerifiesIff(s, l);
    }
    if proto == SCTP {
      SctpCleared(s1, l);
    }
  }

  lemma SctpCleared(s: seq<byte>, l: L3)
    requires LayerOk(s, l, SCTP)
    ensures var r := Put(Put(s, End(l) + 8, 0), End(l) + 10, 0);
            LayerOk(r, l, SCTP) && r[l.at..End(l)] == s[l.at..End(l)] && (forall p :: 0 <= p < l.at ==> r[p] == s[p])
  {
    PutKeepsHeader(s, l, End(l) + 8, 0);
    PutKeepsHeader(Put(s, End(l) + 8, 0), l, End(l) + 10, 0);
  }

  /** Nothing below the inner header changes, and nothing from it on when the outer checksums are
      written. */
  lemma OuterBelow(s: seq<byte>, l: L3, proto: nat, limit: nat)
    requires LayerOk(s, l, proto) && End(l) <= limit && (proto == UDP ==> End(l) + 8 <= limit)
    ensures forall p :: limit <= p < |s| ==> OuterDone(s, l, proto)[p] == s[p]
  {
    hide SumBytes, FixIp, L4Cksum;
    IpFixKeeps(s, l);
  }

  /** Inner first, then outer: afterwards both layers verify at once, as far as each of them can. */
  lemma BothLayersVerify(s: seq<byte>, outer: L3, outerProto: nat, inner: L3, proto: nat)
    requires CarriesOk(s, inner, proto)
    requires LayerOk(s, outer, outerProto) && End(outer) <= inner.at
    requires outerProto == UDP ==> SegmentOk(s, outer, UDP) && End(outer) + 8 <= inner.at
    ensures var mid := InnerDone(s, inner, proto);
            && LayerOk(mid, outer, outerProto)
            && var r := OuterDone(mid, outer, outerProto);
            && LayerOk(r, inner, proto) && LayerOk(r, outer, outerProto)
            && (inner.v4 ==> (IpVerifies(r, inner) <==> SumBytes(s[inner.at + 20..End(inner)]) % 0xFFFF == 0))
            && (Checked(s, inner, proto) ==> (L4Verifies(r, inner) <==> SameSum(s, inner)))
            && (outer.v4 ==> (IpVerifies(r, outer) <==> SumBytes(s[outer.at + 20..End(outer)]) % 0xFFFF == 0))
            && (outerProto == UDP && Checked(s, outer, UDP) ==> (L4Verifies(r, outer) <==> SameSum(mid, outer)))
  {
    hide SumBytes, Verifies, InnerDone, OuterDone, L4Verifies, IpVerifies, Pseudo, L4Sum;
    var mid := InnerDone(s, inner, proto);
    LayerVerifiesIff(s, inner, proto, mid);
    BelowKept(s, mid, outer, outerProto, inner.at);
    assert mid[outer.at + 20..End(outer)] == s[outer.at + 20..End(outer)];
    var r := OuterDone(mid, outer, outerProto);
    OuterBelow(mid, outer, outerProto, inner.at);
    FromHere(mid, r, inner);
    if outerProto == UDP {
      LayerVerifiesIff(mid, outer, UDP, r);
    } else {
      OuterIp(mid, outer, outerProto);
    }
  }

  lemma BelowKept(s: seq<byte>, mid: seq<byte>, l: L3, proto: nat, limit: nat)
    requires |s| == |mid| && LayerOk(s, l, proto) && End(l) <= limit && (proto == UDP ==> End(l) + 8 <= limit)
    requires proto == UDP ==> SegmentOk(s, l, UDP)
    requires forall p :: 0 <= p < limit && p < |s| ==> mid[p] == s[p]
    ensures LayerOk(mid, l, proto)
    ensures proto == UDP ==> SegmentOk(mid, l, UDP) && Get(mid, End(l) + 6) == Get(s, End(l) + 6)
  {}

  /** The outer IP header, whatever is taken for the protocol behind it. */
  lemma OuterIp(s: seq<byte>, l: L3, proto: nat)
    requires LayerOk(s, l, proto)
    ensures LayerOk(OuterDone(s, l, proto), l, proto)
    ensures l.v4 ==> (IpVerifies(OuterDone(s, l, proto), l) <==> SumBytes(s[l.at + 20..End(l)]) % 0xFFFF == 0)
  {
    hide SumBytes, Verifies, FixIp, L4Cksum, Word;
    IpFixKeeps(s, l);
    var s1 := if l.v4 then FixIp(s, l) else s;
    if l.v4 {
      FixIpVerifiesIff(s, l);
    }
    if proto == UDP && Get(s1, End(l) + 6) != 0 {
      PutKeepsHeader(s1, l, End(l) + 6, L4Cksum(s1, l, UDP));
      PutOutside(s1, End(l) + 6, L4Cksum(s1, l, UDP), l.at, End(l));
    }
  }

  /** Without IP options everything verifies. */
  lemma AllVerify(s: seq<byte>, outer: L3, outerProto: nat, inner: L3, proto: nat)
    requires CarriesOk(s, inner, proto) && (inner.v4 ==> inner.hlen == 20)
    requires LayerOk(s, outer, outerProto) && End(outer) <= inner.at && (outer.v4 ==> outer.hlen == 20)
    requires outerProto == UDP ==> SegmentOk(s, outer, UDP) && End(outer) + 8 <= inner.at
    ensures var mid := InnerDone(s, inner, proto);
            && LayerOk(mid, outer, outerProto)
            && var r := OuterDone(mid, outer, outerProto);
            && LayerOk(r, inner, proto) && LayerOk(r, outer, outerProto)
            && (inner.v4 ==> IpVerifies(r, inner)) && (outer.v4 ==> IpVerifies(r, outer))
            && (Checked(s, inner, proto) ==> L4Verifies(r, inner))
            && (outerProto == UDP && Checked(s, outer, UDP) ==> L4Verifies(r, outer))
  {
    hide Verifies, InnerDone, OuterDone, L4Verifies, IpVerifies, Pseudo, L4Sum, SameSum, SegmentOk;
    BothLayersVerify(s, outer, outerProto, inner, proto);
    SameSumWithoutOptions(s, inner);
    SameSumWithoutOptions(InnerDone(s, inner, proto), outer);
    NoOptions(s, inner);
    NoOptions(s, outer);
  }

  lemma NoOptions(s: seq<byte>, l: L3)
    requires End(l) <= |s| && l.at + 20 <= |s|
    ensures l.v4 && l.hlen == 20 ==> SumBytes(s[l.at + 20..End(l)]) == 0
  {}

  // ----- the protocol of an earlier packet -----

  /** What follows the outer header passes for a UDP datagram without a checksum or with the right one. */
  ghost predicate PassesForUdp(s: seq<byte>, outer: L3)
    requires LayerOk(s, outer, UDP)
  {
    Get(s, End(outer) + 6) == 0 || L4Sum(s, outer, TakenLen(s, outer)) % 0xFFFF == 0
  }

  /** Behind the outer header the outer rewriting changes one word, and keeps it exactly when it
      passes for a right checksum. */
  lemma StaleWord(s: seq<byte>, outer: L3)
    requires LayerOk(s, outer, UDP)
    ensures var r, at := OuterDone(s, outer, UDP), End(outer) + 6;
            && (forall p :: End(outer) <= p < |s| ==> r[p] == Put(s, at, Get(r, at))[p])
            && (Get(r, at) == Get(s, at) <==> PassesForUdp(s, outer))
            && (Get(r, at) == 0 <==> Get(s, at) == 0)
  {
    hide SumBytes, Fold, FixIp, L4Sum, Word, Complement, NonZero;
    var at, taken := End(outer) + 6, TakenLen(s, outer);
    IpFixKeeps(s, outer);
    var s1 := if outer.v4 then FixIp(s, outer) else s;
    assert Get(s1, at) == Get(s, at);
    PutGet(s, at);
    if Get(s, at) != 0 {
      var c := L4Cksum(s1, outer, UDP);
      if outer.v4 {
        IpFixSums(s, outer, taken);
      }
      PutL4Sum(s1, outer, at, 0, taken);
      NonZeroMultiple(L4Sum(Put(s1, at, 0), outer, taken));
      GetPut(s1, at, c);
      NeverZero(Complement(Fold(L4Sum(Put(s1, at, 0), outer, taken))));
      SameWord(L4Sum(Put(s1, at, 0), outer, taken), c, Get(s, at));
    }
  }

  lemma PutGet(s: seq<byte>, at: nat)
    requires at + 2 <= |s|
    ensures Put(s, at, Get(s, at)) == s
  {}

  lemma OtherWord(r: seq<byte>, s: seq<byte>, at: nat)
    requires at + 2 <= |r| == |s| && Get(r, at) != Get(s, at)
    ensures r[at] != s[at] || r[at + 1] != s[at + 1]
  {}

  lemma NeverZero(w: word)
    ensures NonZero(w) > 0
  {}

  lemma SameWord(rest: nat, c: word, w: word)
    requires c > 0 && w > 0 && (rest + c) % 0xFFFF == 0
    ensures (rest + w) % 0xFFFF == 0 <==> c == w
  {}

  /** An IP in IP packet keeps the outer protocol of an earlier packet. When that was UDP, a word of
      the inner header is taken for a checksum. The packet from there on stays as it is exactly when
      it passes for a UDP datagram. An inner IPv4 header stays valid exactly then, whatever it
      carries does in any case; of an inner IPv6 header the next header and the hop limit are at
      stake, and its segment stays valid exactly when the next header is kept. */
  lemma StaleProtocol(s: seq<byte>, outer: L3, inner: L3)
    requires LayerOk(s, outer, UDP) && inner.at == End(outer) && HeaderOk(s, inner)
    ensures var r := OuterDone(s, outer, UDP);
            && HeaderOk(r, inner)
            && ((forall p :: inner.at <= p < |s| ==> r[p] == s[p]) <==> PassesForUdp(s, outer))
            && (inner.v4 && IpVerifies(s, inner) ==> (IpVerifies(r, inner) <==> PassesForUdp(s, outer)))
            && (inner.v4 ==> (L4Verifies(r, inner) <==> L4Verifies(s, inner)))
            && (!inner.v4 && L4Verifies(s, inner) ==> (L4Verifies(r, inner) <==> r[inner.at + 6] == s[inner.at + 6]))
  {
    hide SumBytes, Fold, FixIp, L4Cksum, Word, Put, L4Sum, OuterDone, Verifies, PassesForUdp;
    var r, at := OuterDone(s, outer, UDP), inner.at + 6;
    StaleWord(s, outer);
    var q := Put(s, at, Get(r, at));
    PutGet(s, at);
    if inner.v4 {
      WordPutV4(s, inner, Get(r, at));
    } else {
      WordPutV6(s, inner, Get(r, at));
    }
    FromHere(q, r, inner);
    if Get(r, at) != Get(s, at) {
      OtherWord(r, s, at);
    }
  }

  /** An IPv4 packet of nothing but a valid header in an IPv4 packet, after a VXLAN packet: the
      inner header is spoilt. */
  lemma SpoiltHeader() returns (s: seq<byte>, outer: L3, inner: L3)
    ensures outer == L3(0, true, 20) && inner == L3(20, true, 20)
    ensures LayerOk(s, outer, UDP) && HeaderOk(s, inner) && IpVerifies(s, inner)
    ensures HeaderOk(OuterDone(s, outer, UDP), inner) && !IpVerifies(OuterDone(s, outer, UDP), inner)
  {
    hide SumBytes, Verifies, FixIp, OuterDone, PassesForUdp, L4Sum;
    outer, inner := L3(0, true, 20), L3(20, true, 20);
    var b: seq<byte> := [0x45, 0, 0, 40, 0, 0, 0, 0, 64, 4, 0, 0, 0, 0, 0, 0, 0, 0, 0, 0]
                        + [0x45, 0, 0, 20, 0, 0, 0x40, 0, 64, 6, 0, 0, 0, 0, 0, 0, 0, 0, 0, 0];
    FixIpVerifiesIff(b, inner);
    NoOptions(b, inner);
    IpFixKeeps(b, inner);
    s := FixIp(b, inner);
    Spoilt(s, outer, inner);
    StaleProtocol(s, outer, inner);
  }

  lemma Spoilt(s: seq<byte>, outer: L3, inner: L3)
    requires outer == L3(0, true, 20) && inner == L3(20, true, 20) && LayerOk(s, outer, UDP) && |s| == 40
    requires s[2] == 0 && s[3] == 40 && s[9] == 4 && s[26] == 0x40 && s[27] == 0
    requires IpVerifies(s, inner) && forall p :: 12 <= p < 20 ==> s[p] == 0
    ensures !PassesForUdp(s, outer)
  {
    hide SumBytes, Verifies;
    VerifiesIff(SumBytes(s[20..40]));
    assert Segment(s, outer, 20) == s[20..40];
    PseudoLength(s, outer, 20);
    var z := s[12..20];
    assert z + [0, 4] == z + [0, s[9]];
    SumConcat(z, [0, 4]);
    TwoBytes(0, 4);
    TrailingZeros([], z);
    assert [] + z == z;
    Empty();
  }

  lemma Empty()
    ensures SumBytes([]) == 0
  {}

  /** Both rewritings of such a packet: the outer header verifies as always. With an inner IPv4
      header the segment verifies as always, but the header only when nothing of it was replaced;
      with an inner IPv6 header it is the segment that depends on that. */
  lemma StaleBothLayers(s: seq<byte>, outer: L3, inner: L3, proto: nat)
    requires CarriesOk(s, inner, proto) && LayerOk(s, outer, UDP) && inner.at == End(outer)
    ensures var mid := InnerDone(s, inner, proto);
            && LayerOk(mid, outer, UDP)
            && var r, kept := OuterDone(mid, outer, UDP), PassesForUdp(mid, outer);
            && LayerOk(r, outer, UDP) && HeaderOk(r, inner)
            && (outer.v4 ==> (IpVerifies(r, outer) <==> SumBytes(s[outer.at + 20..End(outer)]) % 0xFFFF == 0))
            && (kept <==> forall p :: inner.at <= p < |s| ==> r[p] == mid[p])
            && (inner.v4 && SumBytes(s[inner.at + 20..End(inner)]) % 0xFFFF == 0 ==> (IpVerifies(r, inner) <==> kept))
            && (inner.v4 && Checked(s, inner, proto) ==> (L4Verifies(r, inner) <==> SameSum(s, inner)))
            && (!inner.v4 && Checked(s, inner, proto) ==>
                  (L4Verifies(r, inner) <==> r[inner.at + 6] == mid[inner.at + 6]))
  {
    hide SumBytes, Verifies, InnerDone, OuterDone, L4Verifies, IpVerifies, Pseudo, L4Sum, PassesForUdp, SegmentOk;
    var mid := InnerDone(s, inner, proto);
    LayerVerifiesIff(s, inner, proto, mid);
    LayerBelow(s, mid, outer, inner.at);
    assert mid[outer.at + 20..End(outer)] == s[outer.at + 20..End(outer)];
    StaleProtocol(mid, outer, inner);
    OuterIp(mid, outer, UDP);
    if !inner.v4 {
      SameSumWithoutOptions(s, inner);
    }
  }

  lemma LayerBelow(s: seq<byte>, mid: seq<byte>, l: L3, limit: nat)
    requires |s| == |mid| && LayerOk(s, l, UDP) && End(l) <= limit
    requires forall p :: 0 <= p < limit && p < |s| ==> mid[p] == s[p]
    ensures LayerOk(mid, l, UDP)
  {}

  lemma StillHeader(s: seq<byte>, l: L3, w: word)
    requires HeaderOk(s, l)
    ensures HeaderOk(Put(s, l.at + 6, w), l) && RealLen(Put(s, l.at + 6, w), l) == RealLen(s, l)
    ensures Segment(Put(s, l.at + 6, w), l, RealLen(s, l)) == Segment(s, l, RealLen(s, l))
  {}

  /** Another word six bytes into an IPv4 header. */
  lemma WordPutV4(s: seq<byte>, l: L3, w: word)
    requires HeaderOk(s, l) && l.v4 && (w == 0 <==> Get(s, l.at + 6) == 0)
    ensures var q := Put(s, l.at + 6, w);
            && HeaderOk(q, l)
            && (IpVerifies(s, l) ==> (IpVerifies(q, l) <==> w == Get(s, l.at + 6)))
            && (L4Verifies(q, l) <==> L4Verifies(s, l))
  {
    hide SumBytes, Word, Verifies, Segment;
    var q, len := Put(s, l.at + 6, w), RealLen(s, l);
    StillHeader(s, l, w);
    PutSum(s, l.at + 6, w, l.at, End(l));
    assert q[l.at..End(l)][0] == s[l.at];
    Positive(q[l.at..End(l)], 0);
    VerifiesIff(SumBytes(s[l.at..End(l)]));
    VerifiesIff(SumBytes(q[l.at..End(l)]));
    Replaced(SumBytes(s[l.at..End(l)]), SumBytes(q[l.at..End(l)]), Get(s, l.at + 6), w);
    assert q[l.at + 12..l.at + 20] == s[l.at + 12..l.at + 20];
    assert Pseudo(q, l, len) == Pseudo(s, l, len);
  }

  /** Another next header and hop limit. */
  lemma WordPutV6(s: seq<byte>, l: L3, w: word)
    requires HeaderOk(s, l) && !l.v4
    ensures var q := Put(s, l.at + 6, w);
            && HeaderOk(q, l)
            && (L4Verifies(s, l) ==> (L4Verifies(q, l) <==> q[l.at + 6] == s[l.at + 6]))
  {
    hide L4Sum, Verifies, Segment;
    var q, len := Put(s, l.at + 6, w), RealLen(s, l);
    StillHeader(s, l, w);
    NextHeaderSum(s, q, l, len);
    VerifiesIff(L4Sum(s, l, len));
    VerifiesIff(L4Sum(q, l, len));
    if L4Verifies(s, l) {
      OtherByte(L4Sum(s, l, len), L4Sum(q, l, len), s[l.at + 6], q[l.at + 6]);
    }
  }

  lemma NextHeaderSum(s: seq<byte>, q: seq<byte>, l: L3, len: nat)
    requires |s| == |q| && !l.v4 && l.hlen == 40 && End(l) + len <= |s| && len < 0x1_0000
    requires forall p :: 0 <= p < |s| && !(l.at + 6 <= p < l.at + 8) ==> q[p] == s[p]
    ensures L4Sum(q, l, len) + 0x100 * s[l.at + 6] as nat == L4Sum(s, l, len) + 0x100 * q[l.at + 6] as nat
  {
    hide SumBytes, Word;
    assert q[l.at + 8..l.at + 40] == s[l.at + 8..l.at + 40];
    assert Segment(q, l, len) == Segment(s, l, len);
    var front := s[l.at + 8..l.at + 40] + [len / 0x100, len % 0x100, 0, 0];
    SumConcat(front, [0, 0, 0, s[l.at + 6]]);
    SumConcat(front, [0, 0, 0, q[l.at + 6]]);
    LastByte(s[l.at + 6]);
    LastByte(q[l.at + 6]);
  }

  lemma LastByte(x: byte)
    ensures SumBytes([0, 0, 0, x]) == 0x100 * x as nat
  {
    assert [0, 0, 0, x][2..] == [0, x] && [0, x][2..] == [];
    assert SumBytes([0, x]) == Word(0, x) + SumBytes([0, x][2..]);
  }

  lemma OtherByte(a: nat, b: nat, x: byte, y: byte)
    requires b + 0x100 * x as nat == a + 0x100 * y as nat && a > 0 && a % 0xFFFF == 0
    ensures b > 0 && b % 0xFFFF == 0 <==> x == y
  {}

  lemma Replaced(a: nat, b: nat, v: nat, w: nat)
    requires b + v == a + w && v <= 0xFFFF && w <= 0xFFFF && (v == 0 <==> w == 0)
    ensures a % 0xFFFF == 0 ==> (b % 0xFFFF == 0 <==> w == v)
  {}

  // ----- the routines, in place -----

  lemma FoldSum(a: nat, b: nat)
    ensures FoldOnce(Fold(a) + Fold(b)) == Fold(a + b)
  {
    FoldMod(a);
    FoldMod(b);
    FoldOnceKeeps(Fold(a) + Fold(b));
    Added(Fold(a), Fold(b), a, b);
    FoldEq(Fold(a) + Fold(b), a + b);
    FoldSmall(FoldOnce(Fold(a) + Fold(b)));
  }

  lemma Added(a: nat, b: nat, c: nat, d: nat)
    requires a % 0xFFFF == c % 0xFFFF && b % 0xFFFF == d % 0xFFFF
    ensures (a + b) % 0xFFFF == (c + d) % 0xFFFF
  {
    CongruentAdd(a, c, b);
    CongruentAdd(b, d, c);
  }

  /** rte_ipv4_phdr_cksum(), rte_ipv6_phdr_cksum() */
  method PhdrCksum(s: seq<byte>, l: L3) returns (c: word)
    requires HeaderOk(s, l)
    ensures c == Fold(SumBytes(Pseudo(s, l, TakenLen(s, l))))
  {
    hide SumBytes, Fold;
    var len := TakenLen(s, l);
    if l.v4 {
      c := RawCksum(Pseudo(s, l, len));
    } else {
      var addresses := s[l.at + 8..l.at + 40];
      var rest: seq<byte> := [len / 0x100, len % 0x100, 0, 0] + [0, 0, 0, s[l.at + 6]];
      var sum := RawSum(addresses);
      var more := RawSum(rest);
      SumBound(addresses);
      SumBound(rest);
      SumConcat(addresses, rest);
      assert addresses + rest == Pseudo(s, l, len);
      TwoFoldsSuffice(sum + more);
      c := FoldOnce(FoldOnce(Add32(sum, more)));
    }
  }

  /** rte_ipv4_udptcp_cksum(), rte_ipv6_udptcp_cksum() */
  method UdpTcpCksum(s: seq<byte>, l: L3) returns (c: word)
    requires HeaderOk(s, l)
    ensures c == NonZero(Complement(Fold(L4Sum(s, l, TakenLen(s, l)))))
  {
    hide SumBytes, Fold, Pseudo;
    var raw := RawCksum(Segment(s, l, TakenLen(s, l)));
    var phdr := PhdrCksum(s, l);
    FoldSum(SumBytes(Segment(s, l, TakenLen(s, l))), SumBytes(Pseudo(s, l, TakenLen(s, l))));
    var cksum: nat := 0xFFFF - FoldOnce(raw as nat + phdr as nat);
    c := if cksum == 0 then 0xFFFF else cksum;
  }

  /** A host word goes to memory. */
  method Store(pkt: array<byte>, at: nat, w: word)
    requires at + 2 <= pkt.Length
    modifies pkt
    ensures pkt[..] == Put(old(pkt[..]), at, w)
  {
    pkt[at] := w % 0x100;
    pkt[at + 1] := w / 0x100;
  }

  /** The header checksum of an IPv4 layer */
  method RewriteIp(pkt: array<byte>, l: L3)
    requires HeaderOk(pkt[..], l)
    modifies pkt
    ensures pkt[..] == if l.v4 then FixIp(old(pkt[..]), l) else old(pkt[..])
  {
    hide SumBytes, Fold, Put;
    if l.v4 {
      ghost var before := pkt[..];
      Store(pkt, l.at + 10, 0);
      assert pkt[l.at..l.at + 20] == pkt[..][l.at..l.at + 20];
      var c := RteIpv4Cksum(pkt[l.at..l.at + 20]);
      Store(pkt, l.at + 10, c);
      PutPut(before, l.at + 10, 0, c);
    }
  }

  method RewriteL4(pkt: array<byte>, l: L3, proto: nat)
    requires HeaderOk(pkt[..], l) && FieldAt(proto) + 2 <= RealLen(pkt[..], l)
    modifies pkt
    ensures pkt[..] == FixL4(old(pkt[..]), l, proto)
  {
    hide SumBytes, Fold, Put, L4Sum;
    ghost var before := pkt[..];
    PutKeepsHeader(before, l, End(l) + FieldAt(proto), 0);
    Store(pkt, End(l) + FieldAt(proto), 0);
    var c := UdpTcpCksum(pkt[..], l);
    Store(pkt, End(l) + FieldAt(proto), c);
    PutPut(before, End(l) + FieldAt(proto), 0, c);
  }

  /** process_inner_cksums() without offloads; nothing is done unless the header is IPv4 or IPv6. */
  method ProcessInnerCksums(pkt: array<byte>, isIp: bool, l: L3, proto: nat)
    requires isIp ==> LayerOk(pkt[..], l, proto)
    modifies pkt
    ensures pkt[..] == if isIp then InnerDone(old(pkt[..]), l, proto) else old(pkt[..])
    ensures forall p :: 0 <= p < pkt.Length && !(isIp && CksumByte(l, proto, p)) ==> pkt[p] == old(pkt[p])
    ensures isIp && proto == 132 ==> forall p :: 8 <= p - l.at - l.hlen < 12 ==> pkt[p] == 0
  {
    hide FixIp, FixL4, Put, CksumByte, SumBytes, Fold;
    if !isIp {
      return;
    }
    ghost var before := pkt[..];
    OnlyChecksums(before, l, proto, InnerDone(before, l, proto), true);
    IpFixKeeps(pkt[..], l);
    RewriteIp(pkt, l);
    if proto == UDP {
      if Word(pkt[End(l) + 6], pkt[End(l) + 7]) != 0 {
        RewriteL4(pkt, l, UDP);
      }
    } else if proto == TCP {
      RewriteL4(pkt, l, TCP);
    } else if proto == SCTP {
      Store(pkt, End(l) + 8, 0);
      Store(pkt, End(l) + 10, 0);
    }
  }

  /** process_outer_cksums() without offloads or segmentation */
  method ProcessOuterCksums(pkt: array<byte>, l: L3, proto: nat)
    requires LayerOk(pkt[..], l, proto)
    modifies pkt
    ensures pkt[..] == OuterDone(old(pkt[..]), l, proto)
    ensures forall p :: 0 <= p < pkt.Length && !CksumByte(l, if proto == 17 then 17 else 0, p) ==> pkt[p] == old(pkt[p])
  {
    hide FixIp, FixL4, Put, CksumByte, SumBytes, Fold;
    ghost var before := pkt[..];
    OnlyChecksums(before, l, proto, OuterDone(before, l, proto), false);
    IpFixKeeps(pkt[..], l);
    RewriteIp(pkt, l);
    if proto != UDP {
      return;
    }
    if Word(pkt[End(l) + 6], pkt[End(l) + 7]) != 0 {
      RewriteL4(pkt, l, UDP);
    }
  }

  /** Step 2 of pkt_burst_checksum_forward(): inner headers first, then the outer ones of a tunnel. */
  method ProcessPacket(pkt: array<byte>, isIp: bool, inner: L3, proto: nat, tunnel: bool, outer: L3, outerProto: nat)
    requires isIp ==> LayerOk(pkt[..], inner, proto)
    requires tunnel ==> LayerOk(if isIp then InnerDone(pkt[..], inner, proto) else pkt[..], outer, outerProto)
    modifies pkt
    ensures var mid := if isIp then InnerDone(old(pkt[..]), inner, proto) else old(pkt[..]);
            pkt[..] == if tunnel then OuterDone(mid, outer, outerProto) else mid
  {
    hide InnerDone, OuterDone, LayerOk;
    ProcessInnerCksums(pkt, isIp, inner, proto);
    if tunnel {
      ProcessOuterCksums(pkt, outer, outerProto);
    }
  }
}
