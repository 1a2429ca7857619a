/** The checksum forwarding engine on one packet: dissect it, then rewrite its checksums. */
module ChecksumForward {
  import opened OnesComplement
  import D = Dissect
  import opened TunnelCksums

  /** A packet buffer as the memory the dissector reads; what lies behind it reads as zero. */
  function Mem(s: seq<byte>): D.Memory {
    (p: nat) => if p < |s| then s[p] else 0
  }

  /** The inner and the outer IP header, where the dissector found them. */
  function InnerOf(d: D.Found): L3 {
    L3(d.inner.l2 + (if d.tunnel then d.outer.l2 + d.outer.l3 else 0), d.inner.ethertype == D.TYPE_IPV4, d.inner.l3)
  }

  function OuterOf(d: D.Found): L3 {
    L3(d.outer.l2, d.outer.ethertype == D.TYPE_IPV4, d.outer.l3)
  }

  predicate IsIp(d: D.Found) {
    d.inner.ethertype == D.TYPE_IPV4 || d.inner.ethertype == D.TYPE_IPV6
  }

  /** The headers found lie in the packet, as their length fields say. */
  predicate HeadersFit(s: seq<byte>, d: D.Found) {
    && (IsIp(d) ==> LayerOk(s, InnerOf(d), d.inner.proto))
    && (d.tunnel ==> LayerOk(Middle(s, d), OuterOf(d), d.outer.proto))
  }

  function Middle(s: seq<byte>, d: D.Found): (r: seq<byte>)
    requires IsIp(d) ==> LayerOk(s, InnerOf(d), d.inner.proto)
    ensures |r| == |s|
  {
    if IsIp(d) then InnerDone(s, InnerOf(d), d.inner.proto) else s
  }

  function Rewritten(s: seq<byte>, d: D.Found): seq<byte>
    requires HeadersFit(s, d)
  {
    if d.tunnel then OuterDone(Middle(s, d), OuterOf(d), d.outer.proto) else Middle(s, d)
  }

  /** Steps 1 and 2 of pkt_burst_checksum_forward(). */
  method Forward(pkt: array<byte>, info: D.OffloadInfo, c: D.Config)
    requires HeadersFit(pkt[..], D.Dissected(Mem(pkt[..]), c, info.Outside()))
    modifies pkt, info
    ensures pkt[..] == Rewritten(old(pkt[..]), D.Dissected(Mem(old(pkt[..])), c, old(info.Outside())))
    // no byte but those of the checksums changes
    ensures var d := D.Dissected(Mem(old(pkt[..])), c, old(info.Outside()));
            forall p :: 0 <= p < pkt.Length && !Rewrites(d, p) ==> pkt[p] == old(pkt[p])
  {
    hide D.Dissected, InnerDone, OuterDone, LayerOk, CksumByte;
    ghost var s, stale := pkt[..], info.Outside();
    ghost var d := D.Dissected(Mem(s), c, stale);
    var l3, outerL3 := info.DissectPacket(Mem(pkt[..]), c);
    var inner := L3(l3, info.ethertype == D.TYPE_IPV4, info.l3Len);
    var outer := L3(outerL3, info.outerEthertype == D.TYPE_IPV4, info.outerL3Len);
    assert inner == InnerOf(d) && (d.tunnel ==> outer == OuterOf(d));
    var isIp := info.ethertype == D.TYPE_IPV4 || info.ethertype == D.TYPE_IPV6;
    ProcessPacket(pkt, isIp, inner, info.l4Proto, info.isTunnel, outer, info.outerL4Proto);
    OnlyChecksumsForward(s, d);
  }

  /** A byte of a checksum of the inner headers, or of the outer IP or UDP header of a tunnel. */
  ghost predicate Rewrites(d: D.Found, p: int) {
    || (IsIp(d) && CksumByte(InnerOf(d), d.inner.proto, p))
    || (d.tunnel && CksumByte(OuterOf(d), if d.outer.proto == 17 then 17 else 0, p))
  }

  lemma OnlyChecksumsForward(s: seq<byte>, d: D.Found)
    requires HeadersFit(s, d)
    ensures forall p :: 0 <= p < |s| && !Rewrites(d, p) ==> Rewritten(s, d)[p] == s[p]
  {
    hide InnerDone, OuterDone, LayerOk, CksumByte;
    if IsIp(d) {
      OnlyChecksums(s, InnerOf(d), d.inner.proto, Middle(s, d), true);
    }
    if d.tunnel {
      OnlyChecksums(Middle(s, d), OuterOf(d), d.outer.proto, Rewritten(s, d), false);
    }
  }

  /** A packet that starts with these bytes holds them in memory. */
  lemma Starts(s: seq<byte>, b: seq<byte>)
    requires b <= s
    ensures D.Holds(Mem(s), 0, b)
  {}

  /** The protocol field of a header the packet was built with. */
  lemma ProtoThere(s: seq<byte>, at: nat, ip: D.Ip, proto: byte)
    requires D.IpOk(ip) && at + D.IpLen(ip) <= |s| && D.Holds(Mem(s), at, D.IpBytes(ip, proto))
    ensures s[at + (if ip.V4? then 9 else 6)] == proto
  {
    D.IpFields(Mem(s), at, ip, proto);
  }

  /** The headers of a tunnelled packet as it was built. */
  predicate Built(e: D.Eth, ip: D.Ip, t: D.Tunnel, i: D.Inner, c: D.Config) {
    D.EthOk(e) && D.IpOk(ip) && D.InnerOk(i) && D.TunnelOk(t, i, c)
  }

  function BuiltInner(e: D.Eth, ip: D.Ip, t: D.Tunnel, i: D.Inner, c: D.Config): L3
    requires Built(e, ip, t, i, c)
  {
    L3(|D.Front(e, ip, t, i, c)|, i.ip.V4?, D.IpLen(i.ip))
  }

  function BuiltOuter(e: D.Eth, ip: D.Ip): L3 {
    L3(D.EthLen(e), ip.V4?, D.IpLen(ip))
  }

  predicate NoOptionsIn(ip: D.Ip) {
    ip.V4? ==> ip.ihl == 5
  }

  /** Both IPv4 headers verify, the inner checksum verifies unless it is a UDP checksum that was
      zero, and so does an outer UDP checksum. */
  ghost predicate BothVerify(s: seq<byte>, r: seq<byte>, inner: L3, proto: nat, outer: L3, outerProto: nat) {
    && LayerOk(s, inner, proto) && LayerOk(r, inner, proto) && LayerOk(s, outer, outerProto)
      && LayerOk(r, outer, outerProto)
    && (inner.v4 ==> IpVerifies(r, inner)) && (outer.v4 ==> IpVerifies(r, outer))
    && (Checked(s, inner, proto) ==> L4Verifies(r, inner))
    && (outerProto == UDP && Checked(s, outer, UDP) ==> L4Verifies(r, outer))
  }

  /** As BothVerify, for headers with options: each header verifies exactly when its options add up
      to nothing, each segment with a checksum exactly when its length is taken right. */
  ghost predicate BothVerifyIff(s: seq<byte>, mid: seq<byte>, r: seq<byte>, inner: L3, proto: nat, outer: L3,
                                outerProto: nat)
  {
    && LayerOk(s, inner, proto) && LayerOk(r, inner, proto) && LayerOk(s, outer, outerProto)
    && LayerOk(mid, outer, outerProto) && LayerOk(r, outer, outerProto)
    && (inner.v4 ==> (IpVerifies(r, inner) <==> OptionsVanish(s, inner)))
    && (outer.v4 ==> (IpVerifies(r, outer) <==> OptionsVanish(s, outer)))
    && (Checked(s, inner, proto) ==> (L4Verifies(r, inner) <==> SameSum(s, inner)))
    && (outerProto == UDP && Checked(s, outer, UDP) ==> (L4Verifies(r, outer) <==> SameSum(mid, outer)))
  }

  ghost predicate OptionsVanish(s: seq<byte>, l: L3)
    requires l.v4 && l.hlen >= 20 && End(l) <= |s|
  {
    SumBytes(s[l.at + 20..End(l)]) % 0xFFFF == 0
  }

  /** An IP in IP packet after a UDP tunnel: a word of the inner header is kept exactly when what
      follows the outer header passes for a UDP datagram. An inner IPv4 header verifies only then,
      an inner IPv6 segment only if its next header is kept; the rest is as always. */
  ghost predicate StaleVerifyIff(s: seq<byte>, mid: seq<byte>, r: seq<byte>, inner: L3, proto: nat, outer: L3) {
    && LayerOk(s, inner, proto) && HeaderOk(r, inner) && LayerOk(s, outer, UDP)
    && LayerOk(mid, outer, UDP) && LayerOk(r, outer, UDP) && |s| == |mid| == |r|
    && (outer.v4 ==> (IpVerifies(r, outer) <==> OptionsVanish(s, outer)))
    && (PassesForUdp(mid, outer) <==> forall p :: inner.at <= p < |s| ==> r[p] == mid[p])
    && (inner.v4 && OptionsVanish(s, inner) ==> (IpVerifies(r, inner) <==> PassesForUdp(mid, outer)))
    && (inner.v4 && Checked(s, inner, proto) ==> (L4Verifies(r, inner) <==> SameSum(s, inner)))
    && (!inner.v4 && Checked(s, inner, proto) ==>
          (L4Verifies(r, inner) <==> r[inner.at + 6] == mid[inner.at + 6]))
  }

  /** The protocol the outer rewriting goes by. */
  function OuterProto(t: D.Tunnel, stale: D.Outer): nat {
    if t.Ipip? then stale.proto else D.TunnelProto(t)
  }

  /** End to end, for every tunnelled packet of the grammar and whatever packet came before: the
      headers are found where they were built, and after the rewriting each of them verifies
      exactly under its condition. */
  lemma TunnelledPacketVerifiesIff(s: seq<byte>, e: D.Eth, ip: D.Ip, t: D.Tunnel, i: D.Inner, c: D.Config,
                                   stale: D.Outer)
    requires Built(e, ip, t, i, c) && c.parseTunnel
    requires D.Front(e, ip, t, i, c) + D.InnerBack(i) <= s
    requires LayerOk(s, BuiltInner(e, ip, t, i, c), D.Proto(i.l4))
    requires LayerOk(s, BuiltOuter(e, ip), OuterProto(t, stale))
    ensures var d := D.Dissected(Mem(s), c, stale);
            && d.tunnel && InnerOf(d) == BuiltInner(e, ip, t, i, c) && OuterOf(d) == BuiltOuter(e, ip)
            && d.inner.proto == D.Proto(i.l4) && d.outer.proto == OuterProto(t, stale) && HeadersFit(s, d)
            && if t.Ipip? && stale.proto == UDP then
                 StaleVerifyIff(s, Middle(s, d), Rewritten(s, d), InnerOf(d), d.inner.proto, OuterOf(d))
               else
                 BothVerifyIff(s, Middle(s, d), Rewritten(s, d), InnerOf(d), d.inner.proto, OuterOf(d), d.outer.proto)
  {
    hide D.Dissected, D.TunnelOk, D.InnerBack, D.Front, D.IpBytes, InnerDone, OuterDone, LayerOk, IpVerifies,
      L4Verifies, Checked, D.Holds, D.L4Ok, PassesForUdp, SameSum;
    Starts(s, D.Front(e, ip, t, i, c) + D.InnerBack(i));
    D.TunnelInverts(Mem(s), e, ip, t, i, c, stale);
    var d := D.Dissected(Mem(s), c, stale);
    Positions(s, e, ip, t, i, c);
    if t.Ipip? && stale.proto == UDP {
      StaleBothLayers(s, OuterOf(d), InnerOf(d), d.inner.proto);
    } else {
      BothLayersVerify(s, OuterOf(d), d.outer.proto, InnerOf(d), d.inner.proto);
    }
  }

  /** Without IP options, and unless an earlier UDP tunnel makes an IP in IP packet look like one,
      all of them verify. */
  lemma TunnelledPacketVerifies(s: seq<byte>, e: D.Eth, ip: D.Ip, t: D.Tunnel, i: D.Inner, c: D.Config, stale: D.Outer)
    requires Built(e, ip, t, i, c) && c.parseTunnel && NoOptionsIn(ip) && NoOptionsIn(i.ip)
    requires D.Front(e, ip, t, i, c) + D.InnerBack(i) <= s
    requires t.Ipip? ==> stale.proto != UDP
    requires LayerOk(s, BuiltInner(e, ip, t, i, c), D.Proto(i.l4))
    requires LayerOk(s, BuiltOuter(e, ip), OuterProto(t, stale))
    ensures var d := D.Dissected(Mem(s), c, stale);
            && d.tunnel && HeadersFit(s, d)
            && BothVerify(s, Rewritten(s, d), InnerOf(d), d.inner.proto, OuterOf(d), d.outer.proto)
  {
    hide D.Dissected, D.TunnelOk, D.InnerBack, D.Front, D.IpBytes, InnerDone, OuterDone, LayerOk, IpVerifies,
      L4Verifies, Checked, D.Holds, D.L4Ok, Rewritten, Middle;
    TunnelledPacketVerifiesIff(s, e, ip, t, i, c, stale);
    var d := D.Dissected(Mem(s), c, stale);
    AllHold(s, Middle(s, d), Rewritten(s, d), InnerOf(d), d.inner.proto, OuterOf(d), d.outer.proto);
  }

  /** Without options every condition holds. */
  lemma AllHold(s: seq<byte>, mid: seq<byte>, r: seq<byte>, inner: L3, proto: nat, outer: L3, outerProto: nat)
    requires BothVerifyIff(s, mid, r, inner, proto, outer, outerProto)
    requires (inner.v4 ==> inner.hlen == 20) && (outer.v4 ==> outer.hlen == 20)
    ensures BothVerify(s, r, inner, proto, outer, outerProto)
  {
    hide IpVerifies, L4Verifies, Checked, SameSum;
    NoOptions(s, inner);
    NoOptions(s, outer);
    SameSumWithoutOptions(s, inner);
    SameSumWithoutOptions(mid, outer);
  }

  /** A packet without a tunnel, likewise. */
  lemma PlainPacketVerifiesIff(s: seq<byte>, e: D.Eth, ip: D.Ip, l: D.L4, c: D.Config, stale: D.Outer)
    requires D.EthOk(e) && D.IpOk(ip) && D.L4Ok(l) && D.PlainOk(l, c)
    requires D.EthBytes(e, D.IpType(ip)) + (D.IpBytes(ip, D.Proto(l)) + D.L4Bytes(l)) <= s
    requires LayerOk(s, BuiltOuter(e, ip), D.Proto(l))
    ensures var d, at, proto := D.Dissected(Mem(s), c, stale), BuiltOuter(e, ip), D.Proto(l);
            && !d.tunnel && InnerOf(d) == at && d.inner.proto == proto && HeadersFit(s, d)
            && var r := Rewritten(s, d);
            && LayerOk(r, at, proto)
            && (at.v4 ==> (IpVerifies(r, at) <==> OptionsVanish(s, at)))
            && (Checked(s, at, proto) ==> (L4Verifies(r, at) <==> SameSum(s, at)))
            && forall p :: 0 <= p < at.at ==> r[p] == s[p]
  {
    hide D.Dissected, D.IpBytes, D.EthBytes, D.L4Bytes, InnerDone, OuterDone, LayerOk, IpVerifies, L4Verifies, Checked,
      D.Holds, D.L4Ok, SameSum;
    var a, b, k := D.EthBytes(e, D.IpType(ip)), D.IpBytes(ip, D.Proto(l)), D.L4Bytes(l);
    Starts(s, a + (b + k));
    D.PlainInverts(Mem(s), e, ip, l, c, stale);
    D.HoldsConcat(Mem(s), 0, a, b + k);
    D.HoldsConcat(Mem(s), |a|, b, k);
    ProtoThere(s, |a|, ip, D.Proto(l));
    Carried(s, BuiltOuter(e, ip), D.Proto(l));
    LayerVerifiesIff(s, BuiltOuter(e, ip), D.Proto(l), InnerDone(s, BuiltOuter(e, ip), D.Proto(l)));
  }

  lemma Carried(s: seq<byte>, l: L3, proto: nat)
    requires LayerOk(s, l, proto) && s[l.at + (if l.v4 then 9 else 6)] as nat == proto
    ensures CarriesOk(s, l, proto)
  {}

  /** Both segments are what their headers say, and a UDP tunnel header lies between them. */
  lemma Positions(s: seq<byte>, e: D.Eth, ip: D.Ip, t: D.Tunnel, i: D.Inner, c: D.Config)
    requires Built(e, ip, t, i, c) && D.Front(e, ip, t, i, c) + D.InnerBack(i) <= s
    requires LayerOk(s, BuiltInner(e, ip, t, i, c), D.Proto(i.l4))
    ensures CarriesOk(s, BuiltInner(e, ip, t, i, c), D.Proto(i.l4))
    ensures LayerOk(s, BuiltOuter(e, ip), D.TunnelProto(t)) && D.TunnelProto(t) == UDP ==>
            SegmentOk(s, BuiltOuter(e, ip), UDP)
    ensures End(BuiltOuter(e, ip)) + (if D.TunnelProto(t) == UDP then 8 else 0) <= BuiltInner(e, ip, t, i, c).at
    ensures t.Ipip? ==> BuiltInner(e, ip, t, i, c).at == End(BuiltOuter(e, ip))
  {
    hide D.IpBytes, D.EthBytes, D.TunnelBytes, D.InnerFront, D.L4Bytes, D.Holds, HeaderOk;
    var a, b, h, f := D.EthBytes(e, D.IpType(ip)), D.IpBytes(ip, D.TunnelProto(t)), D.TunnelBytes(t, i, c),
        D.InnerFront(i);
    Starts(s, D.Front(e, ip, t, i, c) + D.InnerBack(i));
    D.Pieces(Mem(s), a, b, h, f, D.InnerBack(i));
    D.HoldsConcat(Mem(s), 0, a, b);
    D.HoldsConcat(Mem(s), |a| + |b| + |h| + |f|, D.IpBytes(i.ip, D.Proto(i.l4)), D.L4Bytes(i.l4));
    ProtoThere(s, |a|, ip, D.TunnelProto(t));
    ProtoThere(s, |a| + |b| + |h| + |f|, i.ip, D.Proto(i.l4));
  }
}
