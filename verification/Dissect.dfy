/** The packet dissector of the checksum forwarding engine: from the first byte of a frame to the
    lengths of its layers, through one level of tunnelling.

    Memory is read as it is: nothing bounds the headers by the length of the packet.
  */
module Dissect {
  import opened OnesComplement
  import opened Optional

  type Memory = nat -> byte

  const TYPE_IPV4: nat := 0x0800
  const TYPE_IPV6: nat := 0x86DD
  const TYPE_VLAN: nat := 0x8100
  const TYPE_TEB: nat := 0x6558
  const PROTO_IPIP: nat := 4
  const PROTO_TCP: nat := 6
  const PROTO_UDP: nat := 17
  const PROTO_GRE: nat := 47
  const VXLAN_PORT: nat := 4789
  const ETHER_HDR: nat := 14
  const VLAN_HDR: nat := 4
  const UDP_HDR: nat := 8
  const VXLAN_HDR: nat := 8

  function Be16(mem: Memory, at: nat): nat {
    mem(at) as nat * 0x100 + mem(at + 1) as nat
  }

  // ----- what the fields say -----

  /** ethertype, l2_len, l3_len, l4_len and l4_proto */
  datatype Layers = Layers(ethertype: nat, l2: nat, l3: nat, l4: nat, proto: nat)

  datatype Outer = Outer(ethertype: nat, l2: nat, l3: nat, proto: nat)

  function L4LenAt(mem: Memory, at: nat, proto: nat): nat {
    if proto == PROTO_TCP then mem(at + 12) as nat / 16 * 4 else if proto == PROTO_UDP then UDP_HDR else 0
  }

  /** l3_len, l4_proto and l4_len of the IPv4 or IPv6 header at an address */
  function Ipv4At(mem: Memory, at: nat, ethertype: nat, l2: nat): Layers {
    var l3 := mem(at) as nat % 16 * 4;
    Layers(ethertype, l2, l3, L4LenAt(mem, at + l3, mem(at + 9)), mem(at + 9))
  }

  function Ipv6At(mem: Memory, at: nat, ethertype: nat, l2: nat): Layers {
    Layers(ethertype, l2, 40, L4LenAt(mem, at + 40, mem(at + 6)), mem(at + 6))
  }

  function EtherAt(mem: Memory, at: nat): Layers {
    var tagged := Be16(mem, at + 12) == TYPE_VLAN;
    var l2 := if tagged then ETHER_HDR + VLAN_HDR else ETHER_HDR;
    var t := if tagged then Be16(mem, at + 16) else Be16(mem, at + 12);
    if t == TYPE_IPV4 then Ipv4At(mem, at + l2, t, l2)
    else if t == TYPE_IPV6 then Ipv6At(mem, at + l2, t, l2)
    else Layers(t, l2, 0, 0, 0)
  }

  function Longer(l: Layers, n: nat): Layers { l.(l2 := l.l2 + n) }

  /** What follows a tunnel header of n bytes, by the kind of its payload. */
  datatype Payload = PayIpv4 | PayIpv6 | PayEther | Unknown

  function PayloadAt(mem: Memory, at: nat, kind: Payload, n: nat): Layers {
    match kind
    case PayIpv4 => Ipv4At(mem, at, TYPE_IPV4, n)
    case PayIpv6 => Ipv6At(mem, at, TYPE_IPV6, n)
    case _ => Longer(EtherAt(mem, at), n)
  }

  function GpePayload(proto: nat): Payload {
    if proto == 0 || proto == 1 then PayIpv4
    else if proto == 2 then PayIpv6
    else if proto == 3 then PayEther
    else Unknown
  }

  function GrePayload(proto: nat): Payload {
    if proto == TYPE_IPV4 then PayIpv4 else if proto == TYPE_IPV6 then PayIpv6
    else if proto == TYPE_TEB then PayEther else Unknown
  }

  /** Length of a GRE header: four bytes, and four for each of key, sequence number and checksum. */
  function GreLen(flags: nat): nat {
    4 + (if flags / 0x2000 % 2 == 1 then 4 else 0) + (if flags / 0x1000 % 2 == 1 then 4 else 0)
    + (if flags / 0x8000 % 2 == 1 then 4 else 0)
  }

  /** What decides about tunnels apart from the packet. */
  datatype Config = Config(parseTunnel: bool, gpePort: nat, rxTunnel: bool)

  datatype Found = Found(tunnel: bool, inner: Layers, outer: Outer)

  /** The kind of the payload behind a tunnel header at an address, and where it starts; a plain
      packet has none. The header in front of it is an IP header of protocol proto. */
  function TunnelAt(mem: Memory, at: nat, proto: nat, c: Config): (Payload, nat) {
    if !c.parseTunnel then (Unknown, 0)
    else if proto == PROTO_UDP then
      if Be16(mem, at + 2) == c.gpePort && GpePayload(mem(at + UDP_HDR + 3)) != Unknown then
        (GpePayload(mem(at + UDP_HDR + 3)), UDP_HDR + VXLAN_HDR)
      else if Be16(mem, at + 2) == VXLAN_PORT || c.rxTunnel then (PayEther, UDP_HDR + VXLAN_HDR)
      else (Unknown, 0)
    else if proto == PROTO_GRE then (GrePayload(Be16(mem, at + 2)), GreLen(Be16(mem, at)))
    else if proto == PROTO_IPIP then
      (if mem(at) / 16 == 4 then PayIpv4 else if mem(at) / 16 == 6 then PayIpv6 else Unknown, 0)
    else (Unknown, 0)
  }

  /** The result for a packet; the outer fields of an earlier packet stay where nothing is set, and
      an IP in IP packet keeps the old outer protocol. */
  function Dissected(mem: Memory, c: Config, stale: Outer): Found {
    var first := EtherAt(mem, 0);
    var at := first.l2 + first.l3;
    var (kind, n) := TunnelAt(mem, at, first.proto, c);
    if kind == Unknown then Found(false, first, stale)
    else
      var proto := if first.proto == PROTO_IPIP then stale.proto else first.proto;
      Found(true, PayloadAt(mem, at + n, kind, n), Outer(first.ethertype, first.l2, first.l3, proto))
  }

  // ----- struct testpmd_offload_info -----

  class OffloadInfo {
    var ethertype: nat
    var l2Len: nat
    var l3Len: nat
    var l4Len: nat
    var l4Proto: nat
    var isTunnel: bool
    var outerEthertype: nat
    var outerL2Len: nat
    var outerL3Len: nat
    var outerL4Proto: nat

    constructor ()
      ensures Outside() == Outer(0, 0, 0, 0)
    {
      ethertype, l2Len, l3Len, l4Len, l4Proto := 0, 0, 0, 0, 0;
      isTunnel := false;
      outerEthertype, outerL2Len, outerL3Len, outerL4Proto := 0, 0, 0, 0;
    }

    function Inside(): Layers
      reads this`ethertype, this`l2Len, this`l3Len, this`l4Len, this`l4Proto
    {
      Layers(ethertype, l2Len, l3Len, l4Len, l4Proto)
    }

    function Outside(): Outer
      reads this`outerEthertype, this`outerL2Len, this`outerL3Len, this`outerL4Proto
    {
      Outer(outerEthertype, outerL2Len, outerL3Len, outerL4Proto)
    }

    /** parse_ipv4() */
    method ParseIpv4(mem: Memory, at: nat)
      modifies this`l3Len, this`l4Proto, this`l4Len
      ensures Inside() == Ipv4At(mem, at, ethertype, l2Len)
    {
      l3Len := mem(at) as nat % 16 * 4;
      l4Proto := mem(at + 9);
      if l4Proto == PROTO_TCP {
        l4Len := mem(at + l3Len + 12) as nat / 16 * 4;
      } else if l4Proto == PROTO_UDP {
        l4Len := UDP_HDR;
      } else {
        l4Len := 0;
      }
    }

    /** parse_ipv6() */
    method ParseIpv6(mem: Memory, at: nat)
      modifies this`l3Len, this`l4Proto, this`l4Len
      ensures Inside() == Ipv6At(mem, at, ethertype, l2Len)
    {
      l3Len := 40;
      l4Proto := mem(at + 6);
      if l4Proto == PROTO_TCP {
        l4Len := mem(at + l3Len + 12) as nat / 16 * 4;
      } else if l4Proto == PROTO_UDP {
        l4Len := UDP_HDR;
      } else {
        l4Len := 0;
      }
    }

    /** parse_ethernet() */
    method ParseEthernet(mem: Memory, at: nat)
      modifies this`ethertype, this`l2Len, this`l3Len, this`l4Proto, this`l4Len
      ensures Inside() == EtherAt(mem, at)
    {
      l2Len := ETHER_HDR;
      ethertype := Be16(mem, at + 12);
      if ethertype == TYPE_VLAN {
        ethertype := Be16(mem, at + ETHER_HDR + 2);
        l2Len := l2Len + VLAN_HDR;
      }
      if ethertype == TYPE_IPV4 {
        ParseIpv4(mem, at + l2Len);
      } else if ethertype == TYPE_IPV6 {
        ParseIpv6(mem, at + l2Len);
      } else {
        l4Len, l3Len, l4Proto := 0, 0, 0;
      }
    }

    /** The fields found so far become those of the outer headers. */
    method MakeOuter()
      modifies this`isTunnel, this`outerEthertype, this`outerL2Len, this`outerL3Len, this`outerL4Proto
      ensures isTunnel && Outside() == Outer(ethertype, l2Len, l3Len, l4Proto)
    {
      isTunnel := true;
      outerEthertype := ethertype;
      outerL2Len := l2Len;
      outerL3Len := l3Len;
      outerL4Proto := l4Proto;
    }

    /** parse_vxlan() */
    method ParseVxlan(mem: Memory, udp: nat, c: Config)
      modifies this
      ensures if Be16(mem, udp + 2) == VXLAN_PORT || c.rxTunnel then
                && isTunnel && Inside() == PayloadAt(mem, udp + UDP_HDR + VXLAN_HDR, PayEther, UDP_HDR + VXLAN_HDR)
                && Outside() == old(Outer(ethertype, l2Len, l3Len, l4Proto))
              else
                isTunnel == old(isTunnel) && Inside() == old(Inside()) && Outside() == old(Outside())
    {
      hide EtherAt, Be16;
      if Be16(mem, udp + 2) != VXLAN_PORT && !c.rxTunnel {
        return;
      }
      MakeOuter();
      ParseEthernet(mem, udp + UDP_HDR + VXLAN_HDR);
      l2Len := l2Len + UDP_HDR + VXLAN_HDR;
    }

    /** The three branches shared by parse_vxlan_gpe() and parse_gre(): a payload behind a header of
        n bytes. */
    method ParsePayload(mem: Memory, at: nat, kind: Payload, n: nat)
      requires kind != Unknown
      modifies this
      ensures isTunnel && Inside() == PayloadAt(mem, at, kind, n)
      ensures Outside() == old(Outer(ethertype, l2Len, l3Len, l4Proto))
    {
      MakeOuter();
      if kind == PayIpv4 {
        ParseIpv4(mem, at);
        ethertype := TYPE_IPV4;
        l2Len := 0;
      } else if kind == PayIpv6 {
        ethertype := TYPE_IPV6;
        ParseIpv6(mem, at);
        l2Len := 0;
      } else {
        ParseEthernet(mem, at);
      }
      l2Len := l2Len + n;
    }

    /** parse_vxlan_gpe() */
    method ParseVxlanGpe(mem: Memory, udp: nat, c: Config)
      modifies this
      ensures var kind := GpePayload(mem(udp + UDP_HDR + 3));
              if Be16(mem, udp + 2) == c.gpePort && kind != Unknown then
                && isTunnel && Inside() == PayloadAt(mem, udp + UDP_HDR + VXLAN_HDR, kind, UDP_HDR + VXLAN_HDR)
                && Outside() == old(Outer(ethertype, l2Len, l3Len, l4Proto))
              else
                isTunnel == old(isTunnel) && Inside() == old(Inside()) && Outside() == old(Outside())
    {
      if Be16(mem, udp + 2) != c.gpePort {
        return;
      }
      var kind := GpePayload(mem(udp + UDP_HDR + 3));
      if kind == Unknown {
        return;
      }
      ParsePayload(mem, udp + UDP_HDR + VXLAN_HDR, kind, UDP_HDR + VXLAN_HDR);
    }

    /** parse_gre() */
    method ParseGre(mem: Memory, gre: nat)
      modifies this
      ensures var kind, n := GrePayload(Be16(mem, gre + 2)), GreLen(Be16(mem, gre));
              if kind != Unknown then
                && isTunnel && Inside() == PayloadAt(mem, gre + n, kind, n)
                && Outside() == old(Outer(ethertype, l2Len, l3Len, l4Proto))
              else
                isTunnel == old(isTunnel) && Inside() == old(Inside()) && Outside() == old(Outside())
    {
      var flags := Be16(mem, gre);
      var n: nat := 4;
      if flags / 0x2000 % 2 == 1 {
        n := n + 4;
      }
      if flags / 0x1000 % 2 == 1 {
        n := n + 4;
      }
      if flags / 0x8000 % 2 == 1 {
        n := n + 4;
      }
      var kind := GrePayload(Be16(mem, gre + 2));
      if kind == Unknown {
        return;
      }
      ParsePayload(mem, gre + n, kind, n);
    }

    /** parse_encap_ip(): the outer protocol is not recorded. */
    method ParseEncapIp(mem: Memory, at: nat)
      modifies this
      ensures var version := mem(at) / 16;
              if version == 4 || version == 6 then
                && isTunnel && Inside() == PayloadAt(mem, at, if version == 4 then PayIpv4 else PayIpv6, 0)
                && Outside() == old(Outer(ethertype, l2Len, l3Len, outerL4Proto))
              else
                isTunnel == old(isTunnel) && Inside() == old(Inside()) && Outside() == old(Outside())
    {
      var version := mem(at) / 16;
      if version != 4 && version != 6 {
        return;
      }
      isTunnel := true;
      outerEthertype := ethertype;
      outerL2Len := l2Len;
      outerL3Len := l3Len;
      if version == 4 {
        ParseIpv4(mem, at);
        ethertype := TYPE_IPV4;
      } else {
        ParseIpv6(mem, at);
        ethertype := TYPE_IPV6;
      }
      l2Len := 0;
    }

    /** Step 1 of pkt_burst_checksum_forward(): offsets of the headers whose checksums come next. */
    method DissectPacket(mem: Memory, c: Config) returns (l3: nat, outerL3: nat)
      modifies this
      ensures Found(isTunnel, Inside(), if isTunnel then Outside() else old(Outside()))
              == Dissected(mem, c, old(Outside()))
      ensures !isTunnel ==> Outside() == old(Outside()) && l3 == l2Len
      ensures isTunnel ==> outerL3 == outerL2Len && l3 == outerL2Len + outerL3Len + l2Len
    {
      hide EtherAt, Be16, Ipv4At, Ipv6At, GreLen, GrePayload, GpePayload;
      isTunnel := false;
      ParseEthernet(mem, 0);
      l3, outerL3 := l2Len, 0;
      if c.parseTunnel {
        if l4Proto == PROTO_UDP {
          var udp := l3 + l3Len;
          ParseVxlanGpe(mem, udp, c);
          if !isTunnel {
            ParseVxlan(mem, udp, c);
          }
        } else if l4Proto == PROTO_GRE {
          ParseGre(mem, l3 + l3Len);
        } else if l4Proto == PROTO_IPIP {
          ParseEncapIp(mem, l3 + l3Len);
        }
      }
      if isTunnel {
        outerL3 := l3;
        l3 := l3 + outerL3Len + l2Len;
      }
    }
  }

  // ----- the packets of the supported grammar, with the numbers the protocols give to each other -----

  /** An IPv4 header of any length, or an IPv6 header; the protocol field comes with what follows. */
  datatype Ip = V4(ihl: nat, a: seq<byte>, b: seq<byte>) | V6(c: nat, a: seq<byte>, b: seq<byte>)

  predicate IpOk(ip: Ip) {
    match ip
    case V4(ihl, a, b) => 5 <= ihl <= 15 && |a| == 8 && |b| == 4 * ihl - 10
    case V6(c, a, b) => c < 16 && |a| == 5 && |b| == 33
  }

  function IpLen(ip: Ip): nat { if ip.V4? then 4 * ip.ihl else 40 }

  function IpType(ip: Ip): nat { if ip.V4? then 0x0800 else 0x86DD }

  function IpBytes(ip: Ip, proto: byte): (b: seq<byte>)
    requires IpOk(ip)
    ensures |b| == IpLen(ip)
  {
    match ip
    case V4(ihl, a, b) => [0x40 + ihl] + a + [proto] + b
    case V6(c, a, b) => [0x60 + c] + a + [proto] + b
  }

  /** A transport header, as far as the dissector looks at it. */
  datatype L4 =
    | Tcp(a: seq<byte>, words: nat, low: nat)
    | Udp(src: seq<byte>, dst: nat, rest: seq<byte>)
    | Other(proto: byte)

  predicate L4Ok(l: L4) {
    match l
    case Tcp(a, words, low) => |a| == 12 && words < 16 && low < 16
    case Udp(src, dst, rest) => |src| == 2 && dst < 0x1_0000 && |rest| == 4
    case Other(proto) => proto != 6 && proto != 17
  }

  function Proto(l: L4): byte { if l.Tcp? then 6 else if l.Udp? then 17 else l.proto }

  function L4Len(l: L4): nat { if l.Tcp? then 4 * l.words else if l.Udp? then 8 else 0 }

  function L4Bytes(l: L4): seq<byte>
    requires L4Ok(l)
  {
    match l
    case Tcp(a, words, low) => a + [16 * words + low]
    case Udp(src, dst, rest) => src + [dst / 0x100, dst % 0x100] + rest
    case Other(_) => []
  }

  /** An Ethernet header with an optional VLAN tag */
  datatype Eth = Eth(addrs: seq<byte>, tci: seq<byte>)

  predicate EthOk(e: Eth) { |e.addrs| == 12 && |e.tci| in {0, 2} }

  function EthLen(e: Eth): nat { if e.tci == [] then 14 else 18 }

  function EthBytes(e: Eth, t: nat): (b: seq<byte>)
    requires EthOk(e) && t < 0x1_0000
    ensures |b| == EthLen(e)
  {
    e.addrs + (if e.tci == [] then [] else [0x81, 0x00] + e.tci) + [t / 0x100, t % 0x100]
  }

  /** What a tunnel carries */
  datatype Inner = Bare(ip: Ip, l4: L4) | Framed(eth: Eth, ip: Ip, l4: L4)

  predicate InnerOk(i: Inner) {
    IpOk(i.ip) && L4Ok(i.l4) && (i.Framed? ==> EthOk(i.eth))
  }

  function InnerL2(i: Inner): nat { if i.Framed? then EthLen(i.eth) else 0 }

  /** The bytes in front of the inner IP header, and from there on. */
  function InnerFront(i: Inner): (b: seq<byte>)
    requires InnerOk(i)
    ensures |b| == InnerL2(i)
  {
    if i.Framed? then EthBytes(i.eth, IpType(i.ip)) else []
  }

  function InnerBack(i: Inner): seq<byte>
    requires InnerOk(i)
  {
    IpBytes(i.ip, Proto(i.l4)) + L4Bytes(i.l4)
  }

  datatype Tunnel =
    | Vxlan(src: seq<byte>, dst: nat, rest: seq<byte>, vxlan: seq<byte>)
    | Gpe(src: seq<byte>, rest: seq<byte>, flags: seq<byte>, next: byte, vni: seq<byte>)
    | Gre(cksum: Option<seq<byte>>, key: Option<seq<byte>>, seqNo: Option<seq<byte>>, others: nat)
    | Ipip

  /** An optional field of four bytes */
  predicate FieldOk(f: Option<seq<byte>>) { f.Some? ==> |f.value| == 4 }

  function FieldBytes(f: Option<seq<byte>>): seq<byte> { if f.Some? then f.value else [] }

  /** The first word of a GRE header: a bit for each field that is there (section 2 of RFC 2890),
      and the other flags. */
  function GreWord(t: Tunnel): nat
    requires t.Gre?
  {
    t.others + (if t.cksum.Some? then 0x8000 else 0) + (if t.key.Some? then 0x2000 else 0)
    + (if t.seqNo.Some? then 0x1000 else 0)
  }

  /** The tunnels of the grammar: VXLAN carries a frame; VXLAN-GPE and GRE say what they carry; GRE
      has a checksum, a key and a sequence number, or any of them. */
  predicate TunnelOk(t: Tunnel, i: Inner, c: Config) {
    match t
    case Vxlan(src, dst, rest, vxlan) =>
      && |src| == 2 && |rest| == 4 && |vxlan| == 8 && dst < 0x1_0000 && dst != c.gpePort
      && (dst == 4789 || c.rxTunnel) && i.Framed?
    case Gpe(src, rest, flags, next, vni) =>
      && |src| == 2 && |rest| == 4 && |flags| == 3 && |vni| == 4 && c.gpePort < 0x1_0000
      && (if i.Framed? then next == 3 else if i.ip.V4? then next == 0 || next == 1 else next == 2)
    case Gre(cksum, key, seqNo, others) =>
      && FieldOk(cksum) && FieldOk(key) && FieldOk(seqNo)
      // none of the three bits
      && others < 0x8000 && others % 0x4000 < 0x1000
    case Ipip => i.Bare?
  }

  function Carried(i: Inner): Payload {
    if i.Framed? then PayEther else if i.ip.V4? then PayIpv4 else PayIpv6
  }

  function CarriedType(i: Inner): nat {
    if i.Framed? then 0x6558 else IpType(i.ip)
  }

  function TunnelProto(t: Tunnel): byte {
    if t.Gre? then 47 else if t.Ipip? then 4 else 17
  }

  function TunnelLen(t: Tunnel): nat {
    match t
    case Vxlan(_, _, _, _) => 16
    case Gpe(_, _, _, _, _) => 16
    case Gre(cksum, key, seqNo, _) => 4 + |FieldBytes(cksum)| + |FieldBytes(key)| + |FieldBytes(seqNo)|
    case Ipip => 0
  }

  function TunnelBytes(t: Tunnel, i: Inner, c: Config): (b: seq<byte>)
    requires TunnelOk(t, i, c)
    ensures |b| == TunnelLen(t)
  {
    match t
    case Vxlan(src, dst, rest, vxlan) => src + [dst / 0x100, dst % 0x100] + rest + vxlan
    case Gpe(src, rest, flags, next, vni) =>
      src + [c.gpePort / 0x100, c.gpePort % 0x100] + rest + flags + [next] + vni
    case Gre(cksum, key, seqNo, _) =>
      [GreWord(t) / 0x100, GreWord(t) % 0x100] + [CarriedType(i) / 0x100, CarriedType(i) % 0x100]
      + FieldBytes(cksum) + FieldBytes(key) + FieldBytes(seqNo)
    case Ipip => []
  }

  /** A tunnelled packet: the bytes in front of the inner IP header, and the whole of it. */
  function Front(e: Eth, ip: Ip, t: Tunnel, i: Inner, c: Config): (b: seq<byte>)
    requires EthOk(e) && IpOk(ip) && InnerOk(i) && TunnelOk(t, i, c)
    ensures |b| == EthLen(e) + IpLen(ip) + TunnelLen(t) + InnerL2(i)
  {
    EthBytes(e, IpType(ip)) + IpBytes(ip, TunnelProto(t)) + TunnelBytes(t, i, c) + InnerFront(i)
  }

  /** Memory holds bytes at an address. */
  ghost predicate Holds(mem: Memory, at: nat, b: seq<byte>) {
    forall k :: 0 <= k < |b| ==> mem(at + k) == b[k]
  }

  lemma HoldsConcat(mem: Memory, at: nat, a: seq<byte>, b: seq<byte>)
    ensures Holds(mem, at, a + b) <==> Holds(mem, at, a) && Holds(mem, at + |a|, b)
  {
    if Holds(mem, at, a + b) {
      forall k | 0 <= k < |a|
        ensures mem(at + k) == a[k]
      {
        assert (a + b)[k] == a[k];
      }
      forall k | 0 <= k < |b|
        ensures mem(at + |a| + k) == b[k]
      {
        assert mem(at + (|a| + k)) == (a + b)[|a| + k] == b[k];
      }
    }
    if Holds(mem, at, a) && Holds(mem, at + |a|, b) {
      forall k | 0 <= k < |a + b|
        ensures mem(at + k) == (a + b)[k]
      {
        if k >= |a| {
          assert mem(at + |a| + (k - |a|)) == b[k - |a|];
        }
      }
    }
  }

  lemma IpFound(mem: Memory, at: nat, ip: Ip, l: L4, l2: nat)
    requires IpOk(ip) && L4Ok(l) && Holds(mem, at, IpBytes(ip, Proto(l)) + L4Bytes(l))
    ensures mem(at) / 16 == if ip.V4? then 4 else 6
    ensures (if ip.V4? then Ipv4At(mem, at, TYPE_IPV4, l2) else Ipv6At(mem, at, TYPE_IPV6, l2))
         == Layers(IpType(ip), l2, IpLen(ip), L4Len(l), Proto(l))
  {
    hide L4LenAt, L4Bytes;
    HoldsConcat(mem, at, IpBytes(ip, Proto(l)), L4Bytes(l));
    IpFields(mem, at, ip, Proto(l));
    L4Found(mem, at + IpLen(ip), l);
  }

  lemma IpFields(mem: Memory, at: nat, ip: Ip, proto: byte)
    requires IpOk(ip) && Holds(mem, at, IpBytes(ip, proto))
    ensures mem(at) == (if ip.V4? then 0x40 + ip.ihl else 0x60 + ip.c)
    ensures mem(at + (if ip.V4? then 9 else 6)) == proto
  {
    var b := IpBytes(ip, proto);
    assert mem(at + 0) == b[0];
    if ip.V4? {
      assert mem(at + 9) == b[9];
    } else {
      assert mem(at + 6) == b[6];
    }
  }

  lemma L4Found(mem: Memory, at: nat, l: L4)
    requires L4Ok(l) && Holds(mem, at, L4Bytes(l))
    ensures L4LenAt(mem, at, Proto(l)) == L4Len(l)
  {
    if l.Tcp? {
      assert mem(at + 12) == L4Bytes(l)[12];
    }
  }

  /** An Ethernet frame with an IP packet is found as it was built. */
  lemma EtherFound(mem: Memory, at: nat, e: Eth, ip: Ip, l: L4)
    requires EthOk(e) && IpOk(ip) && L4Ok(l)
    requires Holds(mem, at, EthBytes(e, IpType(ip)) + (IpBytes(ip, Proto(l)) + L4Bytes(l)))
    ensures EtherAt(mem, at) == Layers(IpType(ip), EthLen(e), IpLen(ip), L4Len(l), Proto(l))
  {
    hide Ipv4At, Ipv6At, IpBytes, L4Bytes, IpLen;
    HoldsConcat(mem, at, EthBytes(e, IpType(ip)), IpBytes(ip, Proto(l)) + L4Bytes(l));
    EthFields(mem, at, e, IpType(ip));
    IpFound(mem, at + EthLen(e), ip, l, EthLen(e));
  }

  lemma EthFields(mem: Memory, at: nat, e: Eth, t: nat)
    requires EthOk(e) && t < 0x1_0000 && t != TYPE_VLAN && Holds(mem, at, EthBytes(e, t))
    ensures Be16(mem, at + 12) == if e.tci == [] then t else TYPE_VLAN
    ensures e.tci != [] ==> Be16(mem, at + 16) == t
  {
    var b := EthBytes(e, t);
    assert mem(at + 12) == b[12] && mem(at + 13) == b[13];
    if e.tci != [] {
      assert mem(at + 16) == b[16] && mem(at + 17) == b[17];
    }
  }

  lemma PayloadFound(mem: Memory, at: nat, i: Inner, n: nat)
    requires InnerOk(i) && Holds(mem, at, InnerFront(i) + InnerBack(i))
    ensures PayloadAt(mem, at, Carried(i), n)
         == Layers(IpType(i.ip), n + InnerL2(i), IpLen(i.ip), L4Len(i.l4), Proto(i.l4))
  {
    hide Ipv4At, Ipv6At, EtherAt, IpBytes, L4Bytes, EthBytes;
    if i.Framed? {
      EtherFound(mem, at, i.eth, i.ip, i.l4);
    } else {
      assert InnerFront(i) + InnerBack(i) == InnerBack(i);
      IpFound(mem, at, i.ip, i.l4, n);
    }
  }

  /** Each optional field makes the header four bytes longer. */
  lemma GreLength(t: Tunnel, i: Inner, c: Config)
    requires t.Gre? && InnerOk(i) && TunnelOk(t, i, c)
    ensures GreWord(t) < 0x1_0000 && GreLen(GreWord(t)) == TunnelLen(t)
  {}

  lemma GreFields(mem: Memory, at: nat, t: Tunnel, i: Inner, c: Config)
    requires t.Gre? && InnerOk(i) && TunnelOk(t, i, c) && Holds(mem, at, TunnelBytes(t, i, c))
    ensures Be16(mem, at) == GreWord(t) && Be16(mem, at + 2) == CarriedType(i)
  {
    hide GreWord;
    GreLength(t, i, c);
    var b := TunnelBytes(t, i, c);
    assert mem(at + 0) == b[0] && mem(at + 1) == b[1] && mem(at + 2) == b[2] && mem(at + 3) == b[3];
  }

  lemma TunnelFound(mem: Memory, at: nat, t: Tunnel, i: Inner, c: Config)
    requires InnerOk(i) && TunnelOk(t, i, c) && c.parseTunnel
    requires Holds(mem, at, TunnelBytes(t, i, c)) && Holds(mem, at + TunnelLen(t), InnerFront(i) + InnerBack(i))
    ensures TunnelAt(mem, at, TunnelProto(t), c) == (Carried(i), TunnelLen(t))
  {
    hide GreLen, IpBytes, L4Bytes, EthBytes;
    var b := TunnelBytes(t, i, c);
    match t {
      case Vxlan(_, dst, _, _) =>
        assert mem(at + 2) == b[2] && mem(at + 3) == b[3];
      case Gpe(_, _, _, _, _) =>
        assert mem(at + 2) == b[2] && mem(at + 3) == b[3] && mem(at + 11) == b[11];
      case Gre(_, _, _, _) =>
        GreLength(t, i, c);
        GreFields(mem, at, t, i, c);
      case Ipip =>
        assert InnerFront(i) + InnerBack(i) == InnerBack(i);
        IpFound(mem, at, i.ip, i.l4, 0);
    }
  }

  /** Dissection inverts construction: every length is the length of the header it was built from,
      and together they reach the first byte of the inner IP header. */
  lemma TunnelInverts(mem: Memory, e: Eth, ip: Ip, t: Tunnel, i: Inner, c: Config, stale: Outer)
    requires EthOk(e) && IpOk(ip) && InnerOk(i) && TunnelOk(t, i, c) && c.parseTunnel
    requires Holds(mem, 0, Front(e, ip, t, i, c) + InnerBack(i))
    ensures var d := Dissected(mem, c, stale);
            && d.tunnel
            && d.inner == Layers(IpType(i.ip), TunnelLen(t) + InnerL2(i), IpLen(i.ip), L4Len(i.l4), Proto(i.l4))
            && d.outer == Outer(IpType(ip), EthLen(e), IpLen(ip), if t.Ipip? then stale.proto else TunnelProto(t))
            && d.outer.l2 + d.outer.l3 + d.inner.l2 == |Front(e, ip, t, i, c)|
            && Holds(mem, d.outer.l2 + d.outer.l3 + d.inner.l2, IpBytes(i.ip, Proto(i.l4)))
  {
    hide TunnelAt, PayloadAt, EtherAt, EthBytes, IpBytes, TunnelBytes, InnerFront, L4Bytes, Holds, TunnelOk;
    var a, b, h, f, k := EthBytes(e, IpType(ip)), IpBytes(ip, TunnelProto(t)), TunnelBytes(t, i, c), InnerFront(i),
                         InnerBack(i);
    Pieces(mem, a, b, h, f, k);
    OuterFound(mem, e, ip, TunnelProto(t));
    TunnelFound(mem, |a| + |b|, t, i, c);
    PayloadFound(mem, |a| + |b| + |h|, i, |h|);
    HoldsConcat(mem, |a| + |b| + |h| + |f|, IpBytes(i.ip, Proto(i.l4)), L4Bytes(i.l4));
    ProtoOf(t);
  }

  lemma ProtoOf(t: Tunnel)
    ensures TunnelProto(t) == PROTO_IPIP <==> t.Ipip?
  {}

  lemma Pieces(mem: Memory, a: seq<byte>, b: seq<byte>, h: seq<byte>, f: seq<byte>, k: seq<byte>)
    requires Holds(mem, 0, a + b + h + f + k)
    ensures Holds(mem, 0, a + b) && Holds(mem, |a| + |b|, h) && Holds(mem, |a| + |b| + |h|, f + k)
    ensures Holds(mem, |a| + |b| + |h| + |f|, k)
  {
    hide Holds;
    HoldsConcat(mem, 0, a + b + h + f, k);
    HoldsConcat(mem, 0, a + b + h, f);
    HoldsConcat(mem, 0, a + b, h);
    HoldsConcat(mem, |a| + |b| + |h|, f, k);
  }

  /** The outer headers, whatever the protocol of the tunnel. */
  lemma OuterFound(mem: Memory, e: Eth, ip: Ip, proto: byte)
    requires EthOk(e) && IpOk(ip) && Holds(mem, 0, EthBytes(e, IpType(ip)) + IpBytes(ip, proto))
    ensures var l := EtherAt(mem, 0);
            l.ethertype == IpType(ip) && l.l2 == EthLen(e) && l.l3 == IpLen(ip) && l.proto == proto
  {
    hide EthBytes, IpBytes, L4LenAt;
    HoldsConcat(mem, 0, EthBytes(e, IpType(ip)), IpBytes(ip, proto));
    EthFields(mem, 0, e, IpType(ip));
    IpFields(mem, EthLen(e), ip, proto);
  }

  /** Nothing in the packet asks for a tunnel, or tunnels are not looked for: the UDP destination
      port, a flag of the device and the protocol decide. */
  predicate PlainOk(l: L4, c: Config) {
    c.parseTunnel ==>
      && (l.Udp? ==> l.dst != 4789 && l.dst != c.gpePort && !c.rxTunnel)
      && (l.Other? ==> l.proto != 47 && l.proto != 4)
  }

  /** A packet without a tunnel is found as one. */
  lemma PlainInverts(mem: Memory, e: Eth, ip: Ip, l: L4, c: Config, stale: Outer)
    requires EthOk(e) && IpOk(ip) && L4Ok(l)
    requires Holds(mem, 0, EthBytes(e, IpType(ip)) + (IpBytes(ip, Proto(l)) + L4Bytes(l)))
    requires PlainOk(l, c)
    ensures Dissected(mem, c, stale)
         == Found(false, Layers(IpType(ip), EthLen(e), IpLen(ip), L4Len(l), Proto(l)), stale)
  {
    hide EtherAt, EthBytes, IpBytes, GpePayload, GrePayload, GreLen;
    EtherFound(mem, 0, e, ip, l);
    HoldsConcat(mem, 0, EthBytes(e, IpType(ip)), IpBytes(ip, Proto(l)) + L4Bytes(l));
    HoldsConcat(mem, EthLen(e), IpBytes(ip, Proto(l)), L4Bytes(l));
    if l.Udp? {
      var at := EthLen(e) + IpLen(ip);
      assert mem(at + 2) == L4Bytes(l)[2] && mem(at + 3) == L4Bytes(l)[3];
    }
  }

  /** When a packet is taken for a tunnel, whatever its bytes: by the UDP destination port or the
      flag of the device, by the payload type of GRE, by the version of an IP header in IP. */
  lemma TunnelFoundIff(mem: Memory, c: Config, stale: Outer)
    ensures var first := EtherAt(mem, 0);
            var d, at := Dissected(mem, c, stale), first.l2 + first.l3;
            && (d.tunnel <==>
                  && c.parseTunnel
                  && (|| (first.proto == 17
                          && (c.rxTunnel || Be16(mem, at + 2) == 4789
                              || (Be16(mem, at + 2) == c.gpePort && mem(at + 11) <= 3)))
                      || (first.proto == 47 && Be16(mem, at + 2) in {0x0800, 0x86DD, 0x6558})
                      || (first.proto == 4 && mem(at) / 16 in {4, 6})))
            && (!d.tunnel ==> d.inner == first && d.outer == stale)
  {
    hide EtherAt, GreLen, PayloadAt;
  }

  /** IPv6 in IPv4 has protocol number 41, which is not looked for: the version check of
      parse_encap_ip() accepts IPv6 only behind protocol 4. */
  lemma Ipv6InIpNotFound(mem: Memory, e: Eth, ip: Ip, rest: seq<byte>, c: Config, stale: Outer)
    requires EthOk(e) && IpOk(ip) && Holds(mem, 0, EthBytes(e, IpType(ip)) + IpBytes(ip, 41) + rest)
    ensures !Dissected(mem, c, stale).tunnel
  {
    hide EtherAt, EthBytes, IpBytes, Holds;
    HoldsConcat(mem, 0, EthBytes(e, IpType(ip)) + IpBytes(ip, 41), rest);
    OuterFound(mem, e, ip, 41);
  }
}
