/** The ICMP echo responder of testpmd: the reply is built in the request's own buffer. */
module IcmpEcho {

  import opened OnesComplement
  import opened Checksums

  const ETHER_HDR: nat := 14
  const VLAN_HDR: nat := 4
  const IPV4_HDR: nat := 20

  // ----- ICMP message -----

  /** Bytes 0 and 1 are type and code, bytes 2 and 3 the checksum. */
  ghost predicate EchoRequest(m: seq<byte>) {
    |m| >= 4 && m[0] == 8 && m[1] == 0
  }

  /** ~cksum + ~htons(ECHO_REQUEST << 8) + htons(ECHO_REPLY << 8), two folds, complement: the
      incremental update in the order of section 3 of RFC 1624. */
  function UpdatedCksum(cksum: word): word {
    Complement(FoldOnce(FoldOnce(Complement(cksum) + Complement(0x0008) + 0x0000)))
  }

  function IcmpReply(m: seq<byte>): seq<byte>
    requires |m| >= 4
  {
    var c := UpdatedCksum(Word(m[2], m[3]));
    m[0 := 0][2 := c % 0x100][3 := c / 0x100]
  }

  lemma {:induction false} IcmpSums(m: seq<byte>)
    requires EchoRequest(m)
    ensures SumBytes(m) == 8 + Word(m[2], m[3]) + SumBytes(m[4..])
    ensures SumBytes(IcmpReply(m)) == UpdatedCksum(Word(m[2], m[3])) + SumBytes(m[4..])
  {
    hide Word;
    var r := IcmpReply(m);
    assert m[0..] == m && r[0..] == r && r[4..] == m[4..];
    NextWord(m, 0);
    NextWord(m, 2);
    NextWord(r, 0);
    NextWord(r, 2);
    WordOf(8, 0);
    WordOf(0, 0);
    var c := UpdatedCksum(Word(m[2], m[3]));
    WordOf(c % 0x100, c / 0x100);
  }

  lemma WordOf(lo: byte, hi: byte)
    ensures Word(lo, hi) == lo as int + 0x100 * hi as int
  {}

  /** The update adds the missing 8 to the checksum, modulo 0xFFFF. */
  lemma UpdateAddsEight(cksum: word)
    ensures var c: nat := cksum;
            UpdatedCksum(cksum) == if c + 8 < 0xFFFF then c + 8 else c + 8 - 0xFFFF
  {
    hide Fold;
    var c: nat := cksum;
    var s: nat := Complement(cksum) + Complement(0x0008) + 0x0000;
    assert s == 2 * 0xFFFF - (c + 8);
    TwoFoldsSuffice(s);
    if c + 8 < 0xFFFF {
      FoldMinus(s);
    } else {
      FoldSmall(s);
    }
  }

  lemma FoldMinus(s: nat)
    requires 0xFFFF < s <= 2 * 0xFFFF
    ensures Fold(s) == s - 0xFFFF
  {}

  /** The sum of a buffer is zero exactly when the buffer is. */
  lemma {:induction false} NothingElseIff(b: seq<byte>)
    ensures SumBytes(b) == 0 <==> forall i :: 0 <= i < |b| ==> b[i] == 0
    decreases |b|
  {
    if |b| >= 2 {
      hide SumBytes;
      assert b[0..] == b;
      NextWord(b, 0);
      NothingElseIff(b[2..]);
      assert forall i :: 2 <= i < |b| ==> b[i] == b[2..][i - 2];
      assert forall i :: 0 <= i < |b[2..]| ==> b[2..][i] == b[i + 2];
    }
  }

  /** A valid request yields a message whose sum is again a multiple of 0xFFFF. It is accepted as
      a non-zero one exactly when something else than type and checksum is not zero. */
  lemma {:induction false} ReplyVerifies(m: seq<byte>)
    requires EchoRequest(m) && Verifies(SumBytes(m))
    ensures SumBytes(IcmpReply(m)) % 0xFFFF == 0
    ensures Verifies(SumBytes(IcmpReply(m))) <==> exists i :: 4 <= i < |m| && m[i] != 0
  {
    hide SumBytes, Fold, UpdatedCksum;
    var c := Word(m[2], m[3]);
    var rest := SumBytes(m[4..]);
    NothingElseIff(m[4..]);
    assert forall i :: 4 <= i < |m| ==> m[i] == m[4..][i - 4];
    assert forall i :: 0 <= i < |m[4..]| ==> m[4..][i] == m[i + 4];
    IcmpSums(m);
    UpdateAddsEight(c);
    VerifiesIff(SumBytes(m));
    VerifiesIff(SumBytes(IcmpReply(m)));
    if c as int + 8 >= 0xFFFF {
      MultipleVanishes(c as int + 8 - 0xFFFF + rest, 1);
    }
  }

  // ----- IPv4 header -----

  /** is_multicast_ipv4_addr(): only the first octet 224 counts. */
  predicate Multicast(addr: seq<byte>)
    requires |addr| == 4
  {
    addr[0] == 0xE0
  }

  /** The multicast addresses of section 4 of RFC 1112: 224.0.0.0 to 239.255.255.255. */
  predicate ClassD(addr: seq<byte>)
    requires |addr| == 4
  {
    0xE0 <= addr[0] <= 0xEF
  }

  /** The macro is right about an address exactly when it is not one from 225.0.0.0 on. */
  lemma MacroAgreesIff(addr: seq<byte>)
    requires |addr| == 4
    ensures (Multicast(addr) <==> ClassD(addr)) <==> !(225 <= addr[0] <= 239)
  {}

  /** The address the responder answers a multicast request from: the requester's with other low
      bits. */
  function OtherSource(src: seq<byte>): (r: seq<byte>)
    requires |src| == 4
    ensures |r| == 4
  {
    src[3 := if src[3] % 4 == 1 then src[3] - src[3] % 4 + 2 else src[3] - src[3] % 4 + 1]
  }

  lemma OtherSourceDiffers(src: seq<byte>)
    requires |src| == 4
    ensures OtherSource(src) != src && OtherSource(src)[..3] == src[..3]
    ensures OtherSource(src)[3] / 4 == src[3] / 4
  {}

  function Swapped(h: seq<byte>): (r: seq<byte>)
    requires |h| == 20
    ensures |r| == 20
  {
    h[..12] + h[16..20] + h[12..16]
  }

  function Readdressed(h: seq<byte>): (r: seq<byte>)
    requires |h| == 20
    ensures |r| == 20
  {
    h[..12] + OtherSource(h[12..16]) + h[12..16]
  }

  function IpReply(h: seq<byte>): (r: seq<byte>)
    requires |h| == 20
    ensures |r| == 20
  {
    if Multicast(h[16..20]) then
      var g := Readdressed(h);
      SetChecksum(g, NonZero(Complement(Fold(SumWithoutChecksum(g)))))
    else
      Swapped(h)
  }

  lemma {:induction false} SwapKeepsSum(h: seq<byte>)
    requires |h| == 20
    ensures SumBytes(Swapped(h)) == SumBytes(h)
  {
    assert h == h[..12] + (h[12..16] + h[16..20]);
    assert Swapped(h) == h[..12] + (h[16..20] + h[12..16]);
    SumConcat(h[..12], h[12..16] + h[16..20]);
    SumConcat(h[12..16], h[16..20]);
    SumConcat(h[..12], h[16..20] + h[12..16]);
    SumConcat(h[16..20], h[12..16]);
  }

  /** The reply's IP header is valid when the request's was, and its source is not the requester. */
  lemma {:induction false} IpReplyVerifies(h: seq<byte>)
    requires |h| == 20 && Verifies(SumBytes(h)) && h[0] != 0
    ensures |IpReply(h)| == 20 && Verifies(SumBytes(IpReply(h)))
    ensures IpReply(h)[16..20] == h[12..16]
    ensures Multicast(h[16..20]) ==> IpReply(h)[12..16] != h[12..16]
    ensures !Multicast(h[16..20]) ==> IpReply(h)[12..16] == h[16..20]
  {
    hide SumBytes, Fold, SumWithoutChecksum, OtherSource;
    if Multicast(h[16..20]) {
      var g := Readdressed(h);
      OtherSourceDiffers(h[12..16]);
      FreshChecksumVerifies(g);
      assert IpReply(h)[12..16] == OtherSource(h[12..16]);
      assert IpReply(h)[16..20] == h[12..16];
    } else {
      SwapKeepsSum(h);
      assert Swapped(h)[12..16] == h[16..20];
      assert Swapped(h)[16..20] == h[12..16];
    }
  }

  /** A request from a unicast address is answered from one exactly when it was not sent to a
      multicast address the macro does not know. */
  lemma {:induction false} UnicastReplyIff(h: seq<byte>)
    requires |h| == 20 && Verifies(SumBytes(h)) && h[0] != 0 && !ClassD(h[12..16])
    ensures !ClassD(IpReply(h)[12..16]) <==> !(225 <= h[16] <= 239)
  {
    hide SumBytes, Verifies, SumWithoutChecksum, Fold, SetChecksum;
    if Multicast(h[16..20]) {
      OtherSourceDiffers(h[12..16]);
      ReaddressedSource(h);
    } else {
      IpReplyVerifies(h);
    }
  }

  lemma ReaddressedSource(h: seq<byte>)
    requires |h| == 20 && Multicast(h[16..20])
    ensures IpReply(h)[12..16] == OtherSource(h[12..16])
  {
    hide Fold, SumWithoutChecksum, OtherSource;
    assert Readdressed(h)[12..16] == OtherSource(h[12..16]);
  }

  /** A valid request from 10.0.0.1 to 225.0.0.1 is answered from 225.0.0.1. */
  lemma MacroMissesMulticast() returns (h: seq<byte>)
    ensures |h| == 20 && h[0] == 0x45 && Verifies(SumBytes(h))
    ensures h[12..16] == [10, 0, 0, 1] && h[16..20] == [225, 0, 0, 1]
    ensures IpReply(h)[12..16] == [225, 0, 0, 1] && ClassD(IpReply(h)[12..16])
  {
    hide SumBytes, Verifies, SumWithoutChecksum, Fold;
    var g: seq<byte> := [0x45, 0, 0, 28, 0, 0, 0, 0, 64, 1, 0, 0] + [10, 0, 0, 1] + [225, 0, 0, 1];
    FreshChecksumVerifies(g);
    h := SetChecksum(g, NonZero(Complement(Fold(SumWithoutChecksum(g)))));
    IpReplyVerifies(h);
  }

  /** A header with a recomputed checksum */
  lemma FreshChecksumVerifies(g: seq<byte>)
    requires |g| == 20 && g[0] != 0
    ensures Verifies(SumBytes(SetChecksum(g, NonZero(Complement(Fold(SumWithoutChecksum(g)))))))
  {
    hide Fold;
    var s := SumWithoutChecksum(g);
    SumSetChecksum(g, NonZero(Complement(Fold(s))));
    assert g[0..] == g && g[..10][0..] == g[..10];
    NextWord(g[..10], 0);
    ComplementVerifies(s);
    VerifiesIff(s + Complement(Fold(s)));
    VerifiesIff(s + NonZero(Complement(Fold(s))));
    MultipleVanishes(s + Complement(Fold(s)), 1);
  }

  // ----- the whole packet, in place -----

  function EthReply(e: seq<byte>): seq<byte>
    requires |e| >= 12
  {
    e[6..12] + e[..6] + e[12..]
  }

  method CopyWithin(pkt: array<byte>, to: nat, src: seq<byte>)
    requires to + |src| <= pkt.Length
    modifies pkt
    ensures forall p :: to <= p < to + |src| ==> pkt[p] == src[p - to]
    ensures forall p :: 0 <= p < pkt.Length && !(to <= p < to + |src|) ==> pkt[p] == old(pkt[p])
  {
    forall i | 0 <= i < |src| {
      pkt[to + i] := src[i];
    }
  }

  /** The reply goes to the requester, from the address it asked; a multicast request is answered from
      the requester's address with its last two bits 1, or 2 where they are 1. */
  ghost predicate Answered(was: seq<byte>, now: seq<byte>, l2: nat)
    requires l2 + IPV4_HDR <= |was| == |now|
  {
    && now[l2 + 16..l2 + 20] == was[l2 + 12..l2 + 16]
    && if was[l2 + 16] != 0xE0 then now[l2 + 12..l2 + 16] == was[l2 + 16..l2 + 20]
       else
         && now[l2 + 12..l2 + 15] == was[l2 + 12..l2 + 15]
         && now[l2 + 15] == was[l2 + 15] - was[l2 + 15] % 4 + (if was[l2 + 15] % 4 == 1 then 2 else 1)
  }

  /** Bytes of the network packet a reply has its own: checksum and addresses, type and its checksum. */
  ghost predicate Renewed(p: int) {
    10 <= p < 20 || p == 20 || 22 <= p < 24
  }

  /** Lines that turn an echo request into the reply. l2 is the length of the link header. */
  method BuildEchoReply(pkt: array<byte>, l2: nat)
    requires ETHER_HDR <= l2 && l2 + IPV4_HDR + 4 <= pkt.Length
    modifies pkt
    ensures pkt[..l2] == EthReply(old(pkt[..l2]))
    ensures pkt[l2..l2 + IPV4_HDR] == IpReply(old(pkt[l2..l2 + IPV4_HDR]))
    ensures pkt[l2 + IPV4_HDR..] == IcmpReply(old(pkt[l2 + IPV4_HDR..]))
    // the link addresses change places; type, checksums and addresses of the reply are new, and nothing else
    ensures pkt[..6] == old(pkt[6..12]) && pkt[6..12] == old(pkt[..6])
    ensures pkt[l2 + IPV4_HDR] == 0
    ensures forall p :: 12 <= p < pkt.Length && !Renewed(p - l2) ==> pkt[p] == old(pkt[p])
    // a checksum is recomputed only for an address that is
    ensures old(pkt[l2 + 16]) != 0xE0 ==> pkt[l2 + 10] == old(pkt[l2 + 10]) && pkt[l2 + 11] == old(pkt[l2 + 11])
    ensures Answered(old(pkt[..]), pkt[..], l2)
  {
    hide IpReply, IcmpReply, EthReply;
    ghost var was := pkt[..];
    ghost var ip, icmp := pkt[l2..l2 + IPV4_HDR], pkt[l2 + IPV4_HDR..];
    BuildEthReply(pkt, l2);
    assert pkt[l2..l2 + IPV4_HDR] == ip;
    assert pkt[l2 + IPV4_HDR..] == icmp;
    ghost var eth := pkt[..l2];
    BuildIpReply(pkt, l2);
    ghost var reply := pkt[l2..l2 + IPV4_HDR];
    BuildIcmpReply(pkt, l2 + IPV4_HDR);
    assert pkt[..l2] == pkt[..l2 + IPV4_HDR][..l2] == eth;
    assert pkt[l2..l2 + IPV4_HDR] == pkt[..l2 + IPV4_HDR][l2..] == reply;
    RepliesKeep(was[..l2], ip, icmp);
    WholePacket(was, pkt[..], l2);
    IpAnswered(was, pkt[..], l2);
  }

  /** What the three replies leave alone. */
  lemma RepliesKeep(e: seq<byte>, h: seq<byte>, m: seq<byte>)
    requires |e| >= ETHER_HDR && |h| == 20 && |m| >= 4
    ensures |EthReply(e)| == |e| && EthReply(e)[..6] == e[6..12] && EthReply(e)[6..12] == e[..6]
    ensures EthReply(e)[12..] == e[12..]
    ensures IpReply(h)[..10] == h[..10] && (h[16] != 0xE0 ==> IpReply(h)[10..12] == h[10..12])
    ensures |IcmpReply(m)| == |m| && IcmpReply(m)[0] == 0 && IcmpReply(m)[1] == m[1] && IcmpReply(m)[4..] == m[4..]
  {
    hide Fold, SumWithoutChecksum, OtherSource, UpdatedCksum;
  }

  lemma IpReplyAnswers(h: seq<byte>)
    requires |h| == 20
    ensures IpReply(h)[16..] == h[12..16] && (h[16] != 0xE0 ==> IpReply(h)[12..16] == h[16..])
    ensures h[16] == 0xE0 ==>
      IpReply(h)[12..15] == h[12..15] && IpReply(h)[15] == h[15] - h[15] % 4 + (if h[15] % 4 == 1 then 2 else 1)
  {
    hide Fold, SumWithoutChecksum;
    var g := Readdressed(h);
    assert g[12..16] == OtherSource(h[12..16]) && g[16..] == h[12..16];
    assert IpReply(h)[12..] == (if h[16] == 0xE0 then g[12..] else Swapped(h)[12..]);
    assert IpReply(h)[12..16] == IpReply(h)[12..][..4] && IpReply(h)[16..] == IpReply(h)[12..][4..];
    assert OtherSource(h[12..16])[..3] == h[12..15];
    assert IpReply(h)[12..15] == IpReply(h)[12..16][..3];
  }

  lemma WholePacket(was: seq<byte>, now: seq<byte>, l2: nat)
    requires ETHER_HDR <= l2 && l2 + IPV4_HDR + 4 <= |was| == |now|
    requires var e, h, m := was[..l2], was[l2..l2 + IPV4_HDR], was[l2 + IPV4_HDR..];
             now[..l2] == EthReply(e) && now[l2..l2 + IPV4_HDR] == IpReply(h) && now[l2 + IPV4_HDR..] == IcmpReply(m)
    ensures now[..6] == was[6..12] && now[6..12] == was[..6] && now[l2 + IPV4_HDR] == 0
    ensures forall p :: 12 <= p < |was| && !Renewed(p - l2) ==> now[p] == was[p]
    ensures was[l2 + 16] != 0xE0 ==> now[l2 + 10] == was[l2 + 10] && now[l2 + 11] == was[l2 + 11]
  {
    hide EthReply, IpReply, IcmpReply;
    var e, h, m := was[..l2], was[l2..l2 + IPV4_HDR], was[l2 + IPV4_HDR..];
    RepliesKeep(e, h, m);
    var e', h', m' := now[..l2], now[l2..l2 + IPV4_HDR], now[l2 + IPV4_HDR..];
    assert now[..6] == e'[..6] && now[6..12] == e'[6..12] && was[..6] == e[..6] && was[6..12] == e[6..12];
    assert now[l2 + IPV4_HDR] == m'[0];
    forall p | 12 <= p < |was| && !Renewed(p - l2)
      ensures now[p] == was[p]
    {
      if p < l2 {
        assert now[p] == e'[12..][p - 12] && was[p] == e[12..][p - 12];
      } else if p < l2 + IPV4_HDR {
        assert now[p] == h'[..10][p - l2] && was[p] == h[..10][p - l2];
      } else if p == l2 + IPV4_HDR + 1 {
        assert now[p] == m'[1] && was[p] == m[1];
      } else {
        assert now[p] == m'[4..][p - l2 - 24] && was[p] == m[4..][p - l2 - 24];
      }
    }
    assert was[l2 + 16] == h[16] && now[l2 + 10] == h'[10] && was[l2 + 10] == h[10];
    assert now[l2 + 11] == h'[11] && was[l2 + 11] == h[11];
    assert h'[10..12][0] == h'[10] && h[10..12][0] == h[10] && h'[10..12][1] == h'[11] && h[10..12][1] == h[11];
  }

  lemma IpAnswered(was: seq<byte>, now: seq<byte>, l2: nat)
    requires l2 + IPV4_HDR <= |was| == |now| && now[l2..l2 + IPV4_HDR] == IpReply(was[l2..l2 + IPV4_HDR])
    ensures Answered(was, now, l2)
  {
    hide IpReply;
    var h, h' := was[l2..l2 + IPV4_HDR], now[l2..l2 + IPV4_HDR];
    IpReplyAnswers(h);
    Header(was, l2);
    Header(now, l2);
  }

  /** The addresses of a network header in its packet */
  lemma Header(s: seq<byte>, l2: nat)
    requires l2 + IPV4_HDR <= |s|
    ensures var h := s[l2..l2 + IPV4_HDR];
            && s[l2 + 12..l2 + 16] == h[12..16] && s[l2 + 16..l2 + 20] == h[16..] && s[l2 + 12..l2 + 15] == h[12..15]
            && s[l2 + 15] == h[15] && s[l2 + 16] == h[16]
  {}


  /** The addresses of the link header change places. */
  method BuildEthReply(pkt: array<byte>, l2: nat)
    requires ETHER_HDR <= l2 <= pkt.Length
    modifies pkt
    ensures pkt[..l2] == EthReply(old(pkt[..l2]))
    ensures forall p :: l2 <= p < pkt.Length ==> pkt[p] == old(pkt[p])
  {
    ghost var eth := pkt[..l2];
    var src, dst := pkt[6..12], pkt[0..6];
    CopyWithin(pkt, 6, dst);
    CopyWithin(pkt, 0, src);
    forall p | 0 <= p < l2
      ensures pkt[p] == EthReply(eth)[p]
    {}
  }

  method BuildIpReply(pkt: array<byte>, at: nat)
    requires at + IPV4_HDR <= pkt.Length
    modifies pkt
    ensures pkt[at..at + IPV4_HDR] == IpReply(old(pkt[at..at + IPV4_HDR]))
    ensures pkt[..at] == old(pkt[..at]) && pkt[at + IPV4_HDR..] == old(pkt[at + IPV4_HDR..])
  {
    hide SumWithoutChecksum, Fold;
    ghost var h, low, high := pkt[at..at + IPV4_HDR], pkt[..at], pkt[at + IPV4_HDR..];
    var dst := pkt[at + 16..at + 20];
    SubSlice(pkt, at, 16, 20);
    if Multicast(dst) {
      Readdress(pkt, at);
      var cksum := Ipv4HdrCksum(pkt[at..at + IPV4_HDR]);
      CopyWithin(pkt, at + 10, [cksum % 0x100, cksum / 0x100]);
      assert pkt[at..at + IPV4_HDR] == SetChecksum(Readdressed(h), cksum);
    } else {
      SwapAddresses(pkt, at);
    }
    assert pkt[..at] == low && pkt[at + IPV4_HDR..] == high;
  }

  method Readdress(pkt: array<byte>, at: nat)
    requires at + IPV4_HDR <= pkt.Length
    modifies pkt
    ensures pkt[at..at + IPV4_HDR] == Readdressed(old(pkt[at..at + IPV4_HDR]))
    ensures forall p :: 0 <= p < pkt.Length && !(at <= p < at + IPV4_HDR) ==> pkt[p] == old(pkt[p])
  {
    hide OtherSource;
    ghost var h := pkt[at..at + IPV4_HDR];
    var ipAddr := pkt[at + 12..at + 16];
    SubSlice(pkt, at, 12, 16);
    CopyWithin(pkt, at + 12, OtherSource(ipAddr));
    CopyWithin(pkt, at + 16, ipAddr);
    assert pkt[at..at + IPV4_HDR] == Readdressed(h);
  }

  method SwapAddresses(pkt: array<byte>, at: nat)
    requires at + IPV4_HDR <= pkt.Length
    modifies pkt
    ensures pkt[at..at + IPV4_HDR] == Swapped(old(pkt[at..at + IPV4_HDR]))
    ensures forall p :: 0 <= p < pkt.Length && !(at <= p < at + IPV4_HDR) ==> pkt[p] == old(pkt[p])
  {
    ghost var h := pkt[at..at + IPV4_HDR];
    var ipAddr, dst := pkt[at + 12..at + 16], pkt[at + 16..at + 20];
    SubSlice(pkt, at, 12, 16);
    SubSlice(pkt, at, 16, 20);
    CopyWithin(pkt, at + 12, dst);
    CopyWithin(pkt, at + 16, ipAddr);
    assert pkt[at..at + IPV4_HDR] == Swapped(h);
  }

  lemma SubSlice(pkt: array<byte>, at: nat, lo: nat, hi: nat)
    requires at + IPV4_HDR <= pkt.Length && lo <= hi <= IPV4_HDR
    ensures pkt[at + lo..at + hi] == pkt[at..at + IPV4_HDR][lo..hi]
  {
    var x, y := pkt[at + lo..at + hi], pkt[at..at + IPV4_HDR][lo..hi];
    forall k | 0 <= k < |x|
      ensures x[k] == y[k]
    {}
  }

  method BuildIcmpReply(pkt: array<byte>, at: nat)
    requires at + 4 <= pkt.Length
    modifies pkt
    ensures pkt[at..] == IcmpReply(old(pkt[at..]))
    ensures pkt[..at] == old(pkt[..at])
  {
    hide Word, UpdatedCksum;
    ghost var m, low := pkt[at..], pkt[..at];
    pkt[at] := 0;
    var cksum := Update(Word(pkt[at + 2], pkt[at + 3]));
    pkt[at + 2] := cksum % 0x100;
    pkt[at + 3] := cksum / 0x100;
    assert pkt[at..] == IcmpReply(m);
    assert pkt[..at] == low;
  }

  method Update(icmpCksum: word) returns (c: word)
    ensures c == UpdatedCksum(icmpCksum)
  {
    hide Fold, FoldOnce;
    var cksum: nat := 0xFFFF - icmpCksum;
    cksum := cksum + (0xFFFF - 0x0008);
    cksum := cksum + 0x0000;
    TwoFoldsSuffice(cksum);
    cksum := FoldOnce(cksum);
    cksum := FoldOnce(cksum);
    LowComplement(cksum);
    c := (0xFFFF_FFFF - cksum) % 0x1_0000;
  }

  lemma LowComplement(w: word)
    ensures (0xFFFF_FFFF - w) % 0x1_0000 == Complement(w)
  {}

  // ----- the burst -----

  /** The packets of a burst whose fate is `reply`, in order. */
  ghost function Chosen(burst: seq<nat>, answers: nat -> bool, reply: bool): seq<nat> {
    if burst == [] then []
    else
      var rest, last := Chosen(burst[..|burst| - 1], answers, reply), burst[|burst| - 1];
      if answers(last) == reply then rest + [last] else rest
  }

  lemma ChosenStep(burst: seq<nat>, i: nat, answers: nat -> bool, reply: bool)
    requires i < |burst|
    ensures Chosen(burst[..i + 1], answers, reply)
         == Chosen(burst[..i], answers, reply) + (if answers(burst[i]) == reply then [burst[i]] else [])
  {
    assert burst[..i + 1][..i] == burst[..i];
  }

  lemma {:induction false} ChosenSplits(burst: seq<nat>, answers: nat -> bool)
    ensures multiset(Chosen(burst, answers, true)) + multiset(Chosen(burst, answers, false)) == multiset(burst)
  {
    if burst != [] {
      var n := |burst| - 1;
      ChosenSplits(burst[..n], answers);
      assert burst == burst[..n] + [burst[n]];
    }
  }

  /** Replies are compacted to the front of the burst array while it is being read; every other
      packet is freed. The index is a uint8_t, so bursts hold at most 255 packets. */
  method Compact(pkts: array<nat>, nbRx: nat, answers: nat -> bool) returns (nbReplies: nat, ghost freed: seq<nat>)
    requires nbRx <= pkts.Length && nbRx <= 255
    modifies pkts
    ensures nbReplies <= nbRx
    ensures pkts[..nbReplies] == Chosen(old(pkts[..nbRx]), answers, true)
    ensures freed == Chosen(old(pkts[..nbRx]), answers, false)
    ensures multiset(pkts[..nbReplies]) + multiset(freed) == multiset(old(pkts[..nbRx]))
  {
    ghost var burst := pkts[..nbRx];
    nbReplies, freed := 0, [];
    var i := 0;
    while i < nbRx
      invariant 0 <= i <= nbRx && nbReplies <= i
      invariant forall j :: i <= j < nbRx ==> pkts[j] == burst[j]
      invariant pkts[..nbReplies] == Chosen(burst[..i], answers, true)
      invariant freed == Chosen(burst[..i], answers, false)
    {
      hide Chosen;
      var pkt := pkts[i];
      ghost var kept := pkts[..nbReplies];
      ChosenStep(burst, i, answers, true);
      ChosenStep(burst, i, answers, false);
      if answers(pkt) {
        pkts[nbReplies] := pkt;
        nbReplies := nbReplies + 1;
        assert pkts[..nbReplies] == kept + [pkt];
      } else {
        freed := freed + [pkt];
      }
      i := (i + 1) % 0x100;
    }
    assert burst[..nbRx] == burst;
    ChosenSplits(burst, answers);
  }
}
