/** The checksum routines of testpmd and of librte_net, each proved against the one's complement
    sum. Sums are 32-bit unsigned variables: every addition is taken modulo 2^32.
  */
module Checksums {

  import opened OnesComplement

  const U32: nat := 0x1_0000_0000

  /** uint32_t addition. */
  function Add32(a: nat, b: nat): (r: nat)
    ensures r < U32
    ensures a + b < U32 ==> r == a + b
  {
    (a + b) % U32
  }

  function EvenLength(len: int): nat {
    if len <= 1 then 0 else len - len % 2
  }

  /** flowgen.c: ip_sum(). */
  method IpSum(hdr: seq<byte>, hdrLen: int) returns (cksum: word)
    requires hdrLen <= |hdr|
    ensures cksum == Complement(Fold(SumBytes(hdr[..EvenLength(hdrLen)])))
  {
    hide SumBytes, Fold, Word, Add32;
    var sum: nat, len, at: nat := 0, hdrLen, 0;
    ghost var even := hdr[..EvenLength(hdrLen)];
    ghost var total := SumBytes(even);
    assert even[0..] == even;
    while len > 1
      invariant at + EvenLength(len) == |even|
      invariant sum < 0x8000_0000
      invariant Fold(sum + SumBytes(even[at..])) == Fold(total)
      decreases len
    {
      NextWord(even, at);
      sum := Add32(sum, Word(hdr[at], hdr[at + 1]));
      if sum >= 0x8000_0000 {
        FoldPart(sum, SumBytes(even[at + 2..]));
        sum := FoldOnce(sum);
      }
      at, len := at + 2, len - 2;
    }
    NoWords(even[at..]);
    while sum / 0x1_0000 != 0
      invariant sum < U32
      invariant Fold(sum) == Fold(total)
      decreases sum
    {
      FoldOnceKeeps(sum);
      sum := FoldOnce(sum);
    }
    FoldSmall(sum);
    cksum := (U32 - 1 - sum) % 0x1_0000;
  }

  lemma NextWord(b: seq<byte>, at: nat)
    requires at + 2 <= |b|
    ensures SumBytes(b[at..]) == Word(b[at], b[at + 1]) + SumBytes(b[at + 2..])
  {
    assert b[at..][2..] == b[at + 2..];
  }

  lemma NoWords(b: seq<byte>)
    requires b == []
    ensures SumBytes(b) == 0
  {}

  /** Folding a partial sum early does not change the result. */
  lemma FoldPart(part: nat, rest: nat)
    ensures Fold(FoldOnce(part) + rest) == Fold(part + rest)
  {
    var q := part / 0x1_0000;
    assert part + rest == FoldOnce(part) + rest + 0xFFFF * q;
    MultipleVanishes(FoldOnce(part) + rest, q);
    FoldEq(FoldOnce(part) + rest, part + rest);
  }

  /** ip_sum() drops an odd last byte where RFC 1071 pads it: the two agree exactly on even
      lengths and on a zero last byte. */
  lemma IpSumMatchesRfcIff(b: seq<byte>)
    ensures Complement(Fold(SumBytes(b[..EvenLength(|b|)]))) == Complement(Fold(SumBytes(b)))
       <==> |b| % 2 == 0 || b[|b| - 1] == 0
  {
    hide SumBytes, Fold;
    var n := EvenLength(|b|);
    assert b == b[..n] + b[n..];
    SumConcat(b[..n], b[n..]);
    if |b| % 2 == 0 {
      NoWords(b[n..]);
    } else {
      LastByte(b[n..], b[|b| - 1]);
      LastByteMatters(SumBytes(b[..n]), b[|b| - 1]);
    }
  }

  lemma LastByteMatters(s: nat, x: byte)
    ensures Fold(s) == Fold(s + x) <==> x == 0
  {
    if 0 < x {
      FoldMod(s);
      FoldMod(s + x);
      SmallStepMoves(s, x);
    }
  }

  lemma LastByte(b: seq<byte>, x: byte)
    requires b == [x]
    ensures SumBytes(b) == x
  {}

  lemma SmallStepMoves(s: nat, x: nat)
    requires 0 < x < 0xFFFF
    ensures (s + x) % 0xFFFF != s % 0xFFFF
  {
    var q, r := s / 0xFFFF, s % 0xFFFF;
    assert s == 0xFFFF * q + r;
    if r + x < 0xFFFF {
      MultipleVanishes(r + x, q);
    } else {
      MultipleVanishes(r + x - 0xFFFF, q + 1);
    }
  }

  // ----- 20-byte IPv4 headers -----

  /** The sum of a header without its checksum field. */
  function SumWithoutChecksum(h: seq<byte>): nat
    requires |h| >= 12
  {
    SumBytes(h[..10]) + SumBytes(h[12..])
  }

  /** A zero checksum is sent as 0xFFFF. */
  function NonZero(w: word): word {
    if w == 0 then 0xFFFF else w
  }

  lemma {:induction false} TenWords(h: seq<byte>)
    requires |h| == 20
    ensures SumWithoutChecksum(h) ==
      Word(h[0], h[1]) + Word(h[2], h[3]) + Word(h[4], h[5]) + Word(h[6], h[7]) + Word(h[8], h[9])
      + Word(h[12], h[13]) + Word(h[14], h[15]) + Word(h[16], h[17]) + Word(h[18], h[19])
  {
    hide Word;
    SumPairs(h[..10]);
    assert h[12..] == h[12..20];
    Unroll4(h, 12);
    NoWords(h[20..]);
  }

  lemma {:induction false} SumPairs(b: seq<byte>)
    requires |b| == 10
    ensures SumBytes(b) == Word(b[0], b[1]) + Word(b[2], b[3]) + Word(b[4], b[5]) + Word(b[6], b[7]) + Word(b[8], b[9])
  {
    hide Word;
    assert b[0..] == b;
    Unroll4(b, 0);
    NextWord(b, 8);
    NoWords(b[10..]);
  }

  /** txonly.c: the checksum part of setup_pkt_udp_ip_headers(). */
  method TxonlyCksum(h: seq<byte>) returns (cksum: word)
    requires |h| == 20
    ensures cksum == NonZero(Complement(Fold(SumWithoutChecksum(h))))
  {
    hide Word, Add32, Fold, SumWithoutChecksum;
    var ipCksum: nat := 0;
    ipCksum := Add32(ipCksum, Word(h[0], h[1]));
    ipCksum := Add32(ipCksum, Word(h[2], h[3]));
    ipCksum := Add32(ipCksum, Word(h[4], h[5]));
    ipCksum := Add32(ipCksum, Word(h[6], h[7]));
    ipCksum := Add32(ipCksum, Word(h[8], h[9]));
    ipCksum := Add32(ipCksum, Word(h[12], h[13]));
    ipCksum := Add32(ipCksum, Word(h[14], h[15]));
    ipCksum := Add32(ipCksum, Word(h[16], h[17]));
    ipCksum := Add32(ipCksum, Word(h[18], h[19]));
    TenWords(h);
    assert ipCksum == SumWithoutChecksum(h);
    cksum := TxonlyReduce(ipCksum);
  }

  /** One fold, a conditional subtraction, complement, and no zero. */
  method TxonlyReduce(sum: nat) returns (cksum: word)
    requires sum <= 9 * 0xFFFF
    ensures cksum == NonZero(Complement(Fold(sum)))
  {
    var ipCksum := sum / 0x1_0000 + sum % 0x1_0000;
    FoldOnceKeeps(sum);
    if ipCksum > 65535 {
      ipCksum := ipCksum - 65535;
    }
    ipCksum := 0xFFFF - ipCksum;
    if ipCksum == 0 {
      ipCksum := 0xFFFF;
    }
    cksum := ipCksum;
  }

  /** icmpecho.c: ipv4_hdr_cksum(). */
  method Ipv4HdrCksum(h: seq<byte>) returns (cksum: word)
    requires |h| == 20
    ensures cksum == NonZero(Complement(Fold(SumWithoutChecksum(h))))
  {
    var ipCksum: nat := Word(h[0], h[1]) + Word(h[2], h[3]) + Word(h[4], h[5]) + Word(h[6], h[7]) + Word(h[8], h[9])
      + Word(h[12], h[13]) + Word(h[14], h[15]) + Word(h[16], h[17]) + Word(h[18], h[19]);
    TenWords(h);
    TwoFoldsSuffice(ipCksum);
    ipCksum := FoldOnce(ipCksum);
    ipCksum := FoldOnce(ipCksum);
    ipCksum := 0xFFFF - ipCksum;
    cksum := if ipCksum == 0 then 0xFFFF else ipCksum;
  }

  function SetChecksum(h: seq<byte>, w: word): seq<byte>
    requires |h| >= 12
  {
    h[10 := w % 0x100][11 := w / 0x100]
  }

  lemma {:induction false} SumSplitAt10(h: seq<byte>)
    requires |h| >= 12
    ensures SumBytes(h) == SumWithoutChecksum(h) + Word(h[10], h[11])
  {
    assert h == h[..10] + (h[10..12] + h[12..]);
    SumConcat(h[..10], h[10..12] + h[12..]);
    SumConcat(h[10..12], h[12..]);
    assert SumBytes(h[10..12]) == Word(h[10], h[11]) by {
      assert h[10..12][2..] == [];
    }
  }

  lemma {:induction false} SumSetChecksum(h: seq<byte>, w: word)
    requires |h| >= 12
    ensures SumBytes(SetChecksum(h, w)) == SumWithoutChecksum(h) + w
  {
    var g := SetChecksum(h, w);
    SumSplitAt10(g);
    assert g[..10] == h[..10] && g[12..] == h[12..];
  }

  /** ip_sum() over a header with a cleared checksum and the two others give the same value up to
      the representation of zero, and either value makes the header verify. */
  lemma {:induction false} HeaderChecksumsAgree(h: seq<byte>)
    requires |h| == 20 && h[10] == 0 && h[11] == 0
    ensures var byIpSum := Complement(Fold(SumBytes(h)));
            var byOthers := NonZero(Complement(Fold(SumWithoutChecksum(h))));
            && byOthers == NonZero(byIpSum)
            && (SumBytes(h) > 0 ==> Verifies(SumBytes(SetChecksum(h, byIpSum))))
            && (SumBytes(h) > 0 ==> Verifies(SumBytes(SetChecksum(h, byOthers))))
  {
    SumSplitAt10(h);
    var s := SumBytes(h);
    var c := Complement(Fold(s));
    SumSetChecksum(h, c);
    SumSetChecksum(h, NonZero(c));
    if s > 0 {
      ComplementVerifies(s);
      VerifiesIff(s + c);
      VerifiesIff(s + NonZero(c));
      MultipleVanishes(s + c, 1);
    }
  }

  // ----- librte_net -----

  /** __rte_raw_cksum(): four words at a time, then the rest, then an odd byte. */
  method RawSum(buf: seq<byte>) returns (sum: nat)
    requires |buf| <= 0x2_0000
    ensures sum == SumBytes(buf) < U32
  {
    hide Word, Add32, SumBytes;
    SumBound(buf);
    sum := 0;
    var at: nat := 0;
    assert buf[0..] == buf;
    while |buf| - at >= 8
      invariant at <= |buf| && at % 2 == 0
      invariant sum + SumBytes(buf[at..]) == SumBytes(buf)
    {
      var w0: nat, w1: nat := Word(buf[at], buf[at + 1]), Word(buf[at + 2], buf[at + 3]);
      var w2: nat, w3: nat := Word(buf[at + 4], buf[at + 5]), Word(buf[at + 6], buf[at + 7]);
      Unroll4(buf, at);
      sum := Add32(sum, w0);
      sum := Add32(sum, w1);
      sum := Add32(sum, w2);
      sum := Add32(sum, w3);
      at := at + 8;
    }
    while |buf| - at >= 2
      invariant at <= |buf| && at % 2 == 0
      invariant sum + SumBytes(buf[at..]) == SumBytes(buf)
    {
      NextWord(buf, at);
      sum := Add32(sum, Word(buf[at], buf[at + 1]));
      at := at + 2;
    }
    if |buf| - at == 1 {
      LastByte(buf[at..], buf[at]);
      sum := Add32(sum, buf[at]);
    } else {
      NoWords(buf[at..]);
    }
  }

  lemma {:induction false} Unroll4(buf: seq<byte>, at: nat)
    requires at + 8 <= |buf|
    ensures SumBytes(buf[at..]) == Word(buf[at], buf[at + 1]) + Word(buf[at + 2], buf[at + 3])
      + Word(buf[at + 4], buf[at + 5]) + Word(buf[at + 6], buf[at + 7]) + SumBytes(buf[at + 8..])
  {
    NextWord(buf, at);
    NextWord(buf, at + 2);
    NextWord(buf, at + 4);
    NextWord(buf, at + 6);
  }

  /** rte_raw_cksum() */
  method RawCksum(buf: seq<byte>) returns (cksum: word)
    requires |buf| <= 0x2_0000
    ensures cksum == Fold(SumBytes(buf))
  {
    var sum := RawSum(buf);
    TwoFoldsSuffice(sum);
    sum := FoldOnce(FoldOnce(sum));
    cksum := sum;
  }

  /** rte_ipv4_cksum(): sums the fixed 20 bytes of the header. */
  method RteIpv4Cksum(h: seq<byte>) returns (cksum: word)
    requires |h| == 20
    ensures cksum == NonZero(Complement(Fold(SumBytes(h))))
  {
    var raw := RawCksum(h);
    cksum := if raw == 0xFFFF then raw else 0xFFFF - raw;
  }
}
