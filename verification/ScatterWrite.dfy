/** Writing a buffer into a packet held in a chain of segments: txonly.c.

    A chain is the array of its segments' bytes; following `next` is stepping to the next index,
    and stepping past the last segment is the null pointer dereference of the original.
  */
module ScatterWrite {
  import opened Sums

  type byte = x: int | 0 <= x < 0x100

  function Total(segs: seq<seq<byte>>): nat {
    if segs == [] then 0 else |segs[0]| + Total(segs[1..])
  }

  function Flat(segs: seq<seq<byte>>): seq<byte> {
    if segs == [] then [] else segs[0] + Flat(segs[1..])
  }

  /** `whole` with the bytes from offset on replaced by buf. */
  function Patch(whole: seq<byte>, offset: nat, buf: seq<byte>): seq<byte>
    requires offset + |buf| <= |whole|
  {
    whole[..offset] + buf + whole[offset + |buf|..]
  }

  ghost predicate SameShape(a: seq<seq<byte>>, b: seq<seq<byte>>) {
    |a| == |b| && forall i :: 0 <= i < |a| ==> |a[i]| == |b[i]|
  }

  lemma {:induction false} FlatLength(segs: seq<seq<byte>>)
    ensures |Flat(segs)| == Total(segs)
  {
    if segs != [] {
      FlatLength(segs[1..]);
    }
  }

  lemma {:induction false} FlatSplit(segs: seq<seq<byte>>, k: nat)
    requires k <= |segs|
    ensures Flat(segs) == Flat(segs[..k]) + Flat(segs[k..])
    ensures Total(segs) == Total(segs[..k]) + Total(segs[k..])
  {
    if k == 0 {
      assert segs[..0] == [] && segs[0..] == segs;
    } else {
      FlatSplit(segs[1..], k - 1);
      assert segs[..k][1..] == segs[1..][..k - 1];
      assert segs[k..] == segs[1..][k - 1..];
      assert segs[0] + (Flat(segs[1..][..k - 1]) + Flat(segs[k..]))
          == segs[0] + Flat(segs[1..][..k - 1]) + Flat(segs[k..]);
    }
  }

  /** Writing inside one segment is a patch of the flat packet. */
  lemma {:induction false} PatchSegment(segs: seq<seq<byte>>, k: nat, offset: nat, buf: seq<byte>)
    requires k < |segs| && offset + |buf| <= |segs[k]|
    ensures Total(segs[..k]) + offset + |buf| <= |Flat(segs)|
    ensures Flat(segs[k := Patch(segs[k], offset, buf)]) == Patch(Flat(segs), Total(segs[..k]) + offset, buf)
  {
    var segs' := segs[k := Patch(segs[k], offset, buf)];
    FlatSplit(segs, k);
    FlatSplit(segs', k);
    FlatLength(segs[..k]);
    assert segs'[..k] == segs[..k];
    assert segs[k..][1..] == segs[k + 1..] && segs'[k..][1..] == segs[k + 1..];
    var before, seg, after := Flat(segs[..k]), segs[k], Flat(segs[k + 1..]);
    assert Flat(segs) == before + (seg + after);
    assert Flat(segs') == before + (Patch(seg, offset, buf) + after);
  }

  /** Two adjacent patches are one. */
  lemma PatchTwice(whole: seq<byte>, offset: nat, a: seq<byte>, b: seq<byte>)
    requires offset + |a| + |b| <= |whole|
    ensures Patch(Patch(whole, offset, a), offset + |a|, b) == Patch(whole, offset, a + b)
  {}

  /** The walk to the segment of the first byte; seg is the length of the chain when it leaves it. */
  method FindSegment(pkt: array<seq<byte>>, offset: nat) returns (seg: nat, off: nat)
    ensures seg <= pkt.Length && offset == Total(pkt[..seg]) + off
    ensures seg < pkt.Length <==> offset < Total(pkt[..])
    ensures seg < pkt.Length ==> off < |pkt[seg]|
  {
    hide Total;
    seg, off := 0, offset;
    TotalSteps(pkt[..], 0);
    assert pkt[..][..0] == pkt[..0];
    while seg < pkt.Length && off >= |pkt[seg]|
      invariant seg <= pkt.Length && offset == Total(pkt[..seg]) + off
    {
      TotalSteps(pkt[..], seg);
      assert pkt[..][..seg] == pkt[..seg] && pkt[..][..seg + 1] == pkt[..seg + 1];
      off := off - |pkt[seg]|;
      seg := seg + 1;
    }
    assert pkt[..][..seg] == pkt[..seg];
    if seg < pkt.Length {
      TotalSteps(pkt[..], seg);
      TotalUpTo(pkt[..], seg + 1);
    } else {
      assert pkt[..seg] == pkt[..];
    }
  }

  /** copy_buf_to_pkt_segs(): ok is false when the walk leaves the chain. */
  method CopyBufToPktSegs(buf: seq<byte>, pkt: array<seq<byte>>, offset: nat) returns (ok: bool)
    modifies pkt
    ensures ok <==> offset < Total(old(pkt[..])) && offset + |buf| <= Total(old(pkt[..]))
    ensures SameShape(pkt[..], old(pkt[..]))
    ensures ok ==>
      && offset + |buf| <= |Flat(old(pkt[..]))|
      && Flat(pkt[..]) == Patch(Flat(old(pkt[..])), offset, buf)
  {
    hide Flat, Total;
    ghost var start := pkt[..];
    FlatLength(start);
    var seg: nat, at: nat := FindSegment(pkt, offset);
    if seg == pkt.Length {
      return false;
    }
    assert start[..seg] == pkt[..seg];
    var copyLen: nat := |pkt[seg]| - at;
    var done: nat := 0;
    assert Patch(Flat(start), offset, buf[..0]) == Flat(start);
    while |buf| - done > copyLen
      invariant seg < pkt.Length && at <= |pkt[seg]| && copyLen == |pkt[seg]| - at
      invariant 0 <= done <= |buf|
      invariant Written(pkt[..], start, seg, at, offset, buf[..done])
      decreases pkt.Length - seg
    {
      CopyPiece(pkt, start, seg, at, offset, buf[..done], buf[done..done + copyLen]);
      assert buf[..done] + buf[done..done + copyLen] == buf[..done + copyLen];
      done := done + copyLen;
      WrittenNext(pkt[..], start, seg, at + copyLen, offset, buf[..done]);
      seg := seg + 1;
      if seg == pkt.Length {
        assert start[..seg] == start;
        return false;
      }
      at := 0;
      copyLen := |pkt[seg]|;
    }
    CopyPiece(pkt, start, seg, at, offset, buf[..done], buf[done..]);
    assert buf[..done] + buf[done..] == buf;
    ok := true;
  }

  /** The chain holds `start` patched with `bytes` at offset; the next byte goes to segment seg at
      position at. */
  ghost predicate Written(pkt: seq<seq<byte>>, start: seq<seq<byte>>, seg: nat, at: nat, offset: nat,
      bytes: seq<byte>) {
    && SameShape(pkt, start) && seg <= |start|
    && Total(start[..seg]) + at == offset + |bytes| <= |Flat(start)|
    && Flat(pkt) == Patch(Flat(start), offset, bytes)
  }

  lemma WrittenNext(pkt: seq<seq<byte>>, start: seq<seq<byte>>, seg: nat, at: nat, offset: nat, bytes: seq<byte>)
    requires Written(pkt, start, seg, at, offset, bytes) && seg < |start| && at == |start[seg]|
    ensures Written(pkt, start, seg + 1, 0, offset, bytes)
  {
    TotalSteps(start, seg);
  }

  /** One rte_memcpy of the loop. */
  method CopyPiece(pkt: array<seq<byte>>, ghost start: seq<seq<byte>>, seg: nat, at: nat, ghost offset: nat,
                   ghost before: seq<byte>, piece: seq<byte>)
    requires Written(pkt[..], start, seg, at, offset, before)
    requires seg < pkt.Length && at + |piece| <= |pkt[seg]|
    modifies pkt
    ensures Written(pkt[..], start, seg, at + |piece|, offset, before + piece)
  {
    hide Flat, Total;
    ShapeTotal(pkt[..], start, seg);
    FlatLength(start);
    TotalSteps(start, seg);
    TotalUpTo(start, seg + 1);
    PatchTwice(Flat(start), offset, before, piece);
    WriteAt(pkt, seg, at, piece);
  }

  /** memcpy into one segment. */
  method WriteAt(pkt: array<seq<byte>>, seg: nat, at: nat, bytes: seq<byte>)
    requires seg < pkt.Length && at + |bytes| <= |pkt[seg]|
    modifies pkt
    ensures SameShape(pkt[..], old(pkt[..]))
    ensures Total(old(pkt[..])[..seg]) + at + |bytes| <= |Flat(old(pkt[..]))|
    ensures Flat(pkt[..]) == Patch(Flat(old(pkt[..])), Total(old(pkt[..])[..seg]) + at, bytes)
  {
    PatchSegment(pkt[..], seg, at, bytes);
    ghost var start := pkt[..];
    pkt[seg] := Patch(pkt[seg], at, bytes);
    assert pkt[..] == start[seg := Patch(start[seg], at, bytes)];
  }

  lemma One(seg: seq<byte>)
    ensures Total([seg]) == |seg|
  {
    assert |[seg][1..]| == 0;
  }

  lemma TotalSteps(segs: seq<seq<byte>>, k: nat)
    requires k <= |segs|
    ensures Total(segs[..0]) == 0
    ensures k < |segs| ==> Total(segs[..k + 1]) == Total(segs[..k]) + |segs[k]|
  {
    assert segs[..0] == [];
    if k < |segs| {
      FlatSplit(segs[..k + 1], k);
      assert segs[..k + 1][..k] == segs[..k] && segs[..k + 1][k..] == [segs[k]];
      One(segs[k]);
    }
  }

  lemma TotalUpTo(segs: seq<seq<byte>>, k: nat)
    requires k <= |segs|
    ensures Total(segs[..k]) <= Total(segs)
  {
    FlatSplit(segs, k);
  }

  lemma {:induction false} ShapeTotal(a: seq<seq<byte>>, b: seq<seq<byte>>, k: nat)
    requires SameShape(a, b) && k <= |a|
    ensures Total(a[..k]) == Total(b[..k])
  {
    if k > 0 {
      ShapeTotal(a, b, k - 1);
      TotalSteps(a, k - 1);
      TotalSteps(b, k - 1);
    } else {
      assert a[..0] == b[..0];
    }
  }

  /** copy_buf_to_pkt(): the fast path for a write that fits the first segment. */
  method CopyBufToPkt(buf: seq<byte>, pkt: array<seq<byte>>, offset: nat) returns (ok: bool)
    requires pkt.Length > 0
    modifies pkt
    // it stays in the chain exactly when the write fits, except for an empty write at the very end
    ensures ok <==> offset + |buf| <= Total(old(pkt[..])) && (offset < Total(old(pkt[..])) || offset <= |old(pkt[0])|)
    ensures SameShape(pkt[..], old(pkt[..]))
    ensures ok ==>
      && offset + |buf| <= |Flat(old(pkt[..]))|
      && Flat(pkt[..]) == Patch(Flat(old(pkt[..])), offset, buf)
  {
    TotalSteps(pkt[..], 0);
    TotalUpTo(pkt[..], 1);
    FlatLength(pkt[..]);
    if offset + |buf| <= |pkt[0]| {
      WriteAt(pkt, 0, offset, buf);
      return true;
    }
    ok := CopyBufToPktSegs(buf, pkt, offset);
  }

  const ETHER_HDR: nat := 14
  const IPV4_HDR: nat := 20
  const UDP_HDR: nat := 8

  /** The three header copies of pkt_burst_transmit(): one 42-byte write at the front. */
  method CopyHeaders(pkt: array<seq<byte>>, eth: seq<byte>, ip: seq<byte>, udp: seq<byte>) returns (ok: bool)
    requires pkt.Length > 0
    requires |eth| == ETHER_HDR && |ip| == IPV4_HDR && |udp| == UDP_HDR
    modifies pkt
    ensures ok <==> ETHER_HDR + IPV4_HDR + UDP_HDR <= Total(old(pkt[..]))
    ensures ok ==>
      && ETHER_HDR + IPV4_HDR + UDP_HDR <= |Flat(old(pkt[..]))|
      && Flat(pkt[..]) == Patch(Flat(old(pkt[..])), 0, eth + ip + udp)
    ensures SameShape(pkt[..], old(pkt[..]))
  {
    hide Total, Flat;
    ghost var start := pkt[..];
    FlatLength(start);
    ok := CopyBufToPkt(eth, pkt, 0);
    if !ok {
      return;
    }
    WholeShape(pkt[..], start);
    ghost var whole := Flat(start);
    ok := CopyBufToPkt(ip, pkt, ETHER_HDR);
    if !ok {
      return;
    }
    WholeShape(pkt[..], start);
    PatchTwice(whole, 0, eth, ip);
    ok := CopyBufToPkt(udp, pkt, ETHER_HDR + IPV4_HDR);
    if !ok {
      return;
    }
    WholeShape(pkt[..], start);
    PatchTwice(whole, 0, eth + ip, udp);
  }

  lemma WholeShape(a: seq<seq<byte>>, b: seq<seq<byte>>)
    requires SameShape(a, b)
    ensures Total(a) == Total(b) && |Flat(a)| == |Flat(b)|
  {
    ShapeTotal(a, b, |a|);
    assert a[..|a|] == a && b[..|b|] == b;
    FlatLength(a);
    FlatLength(b);
  }

  // ----- the check when the segment lengths are configured -----

  lemma SumSteps(s: seq<nat>, i: nat)
    ensures Sum(s[..0]) == 0
    ensures i < |s| ==> Sum(s[..i + 1]) == Sum(s[..i]) + s[i]
  {
    if i < |s| {
      SumStep(s, i);
    }
  }

  lemma ModStep(a: nat, b: nat)
    ensures (a % 0x1_0000 + b) % 0x1_0000 == (a + b) % 0x1_0000
  {}

  /** config.c: set_tx_pkt_segments(). The running total is a uint16_t. */
  method SetTxPktSegments(segLengths: seq<nat>, nbTxd: nat, mbufDataSize: nat)
    returns (accepted: bool, txPktLen: nat)
    ensures accepted <==>
      && |segLengths| < nbTxd
      && (forall i :: 0 <= i < |segLengths| ==> segLengths[i] <= mbufDataSize)
      && Sum(segLengths) % 0x1_0000 >= ETHER_HDR + 20 + 8
    ensures accepted ==> txPktLen == Sum(segLengths) % 0x1_0000
  {
    hide Sum;
    accepted, txPktLen := false, 0;
    SumSteps(segLengths, 0);
    if |segLengths| >= nbTxd {
      return;
    }
    var i: nat := 0;
    while i < |segLengths|
      invariant 0 <= i <= |segLengths|
      invariant forall j :: 0 <= j < i ==> segLengths[j] <= mbufDataSize
      invariant txPktLen == Sum(segLengths[..i]) % 0x1_0000
    {
      if segLengths[i] > mbufDataSize {
        return;
      }
      SumSteps(segLengths, i);
      ModStep(Sum(segLengths[..i]), segLengths[i]);
      txPktLen := (txPktLen + segLengths[i]) % 0x1_0000;
      i := i + 1;
    }
    assert segLengths[..i] == segLengths;
    if txPktLen < ETHER_HDR + 20 + 8 {
      return;
    }
    accepted := true;
  }

  function Lengths(segs: seq<seq<byte>>): seq<nat> {
    seq(|segs|, i requires 0 <= i < |segs| => |segs[i]|)
  }

  lemma {:induction false} SumIsTotal(segs: seq<seq<byte>>)
    ensures Sum(Lengths(segs)) == Total(segs)
  {
    if segs != [] {
      var n := |segs| - 1;
      SumIsTotal(segs[..n]);
      TotalSteps(segs, n);
      assert segs[..n + 1] == segs;
      assert Lengths(segs)[..n] == Lengths(segs[..n]);
    }
  }

  /** Accepted lengths leave room for the headers even when the 16-bit total wrapped. */
  lemma {:induction false} AcceptedHoldsHeaders(segs: seq<seq<byte>>)
    requires Sum(Lengths(segs)) % 0x1_0000 >= ETHER_HDR + 20 + 8
    ensures ETHER_HDR + IPV4_HDR + UDP_HDR <= Total(segs)
  {
    SumIsTotal(segs);
  }

  /** With random splitting a packet is cut to its first segments. The headers fit however it is
      cut exactly when they fit the first segment. */
  lemma {:induction false} RandomSplitIff(segs: seq<seq<byte>>)
    requires segs != []
    ensures (forall n :: 1 <= n <= |segs| ==> ETHER_HDR + IPV4_HDR + UDP_HDR <= Total(segs[..n]))
       <==> ETHER_HDR + IPV4_HDR + UDP_HDR <= |segs[0]|
  {
    TotalSteps(segs, 0);
    if ETHER_HDR + IPV4_HDR + UDP_HDR <= |segs[0]| {
      forall n | 1 <= n <= |segs|
        ensures |segs[0]| <= Total(segs[..n])
      {
        TotalUpTo(segs[..n], 1);
        assert segs[..n][..1] == segs[..1];
      }
    } else {
      assert Total(segs[..1]) == |segs[0]|;
    }
  }

  /** Segments of 10 and 32 bytes hold the headers; a packet cut to the first of them does not. */
  lemma RandomSplitTooShort(segs: seq<seq<byte>>)
    requires |segs| == 2 && |segs[0]| == 10 && |segs[1]| == 32
    ensures Total(segs) == ETHER_HDR + IPV4_HDR + UDP_HDR && Total(segs[..1]) == 10
  {
    TotalSteps(segs, 0);
    TotalSteps(segs, 1);
    assert segs[..2] == segs && segs[..0] == [];
  }
}
