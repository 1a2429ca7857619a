/** Copying a packet into a chain of freshly allocated segments: csumonly.c. */
module SplitCopy {
  import opened Optional
  import opened Sums

  type byte = x: int | 0 <= x < 0x100

  const ENOBUFS: int := 105
  const EINVAL: int := 22

  function Concat(s: seq<seq<byte>>): seq<byte> {
    if s == [] then [] else Concat(s[..|s| - 1]) + s[|s| - 1]
  }

  function Min(a: nat, b: nat): nat {
    if a < b then a else b
  }

  class Mbuf {
    const tailroom: nat
    var data: seq<byte>
    var dataLen: nat
    var next: Mbuf?
    var nbSegs: nat
    var pktLen: nat

    constructor (tailroom: nat)
      ensures this.tailroom == tailroom
    {
      this.tailroom := tailroom;
      data, dataLen, next, nbSegs, pktLen := [], 0, null, 1, 0;
    }
  }

  ghost predicate Distinct(md: seq<Mbuf>) {
    forall i, j :: 0 <= i < j < |md| ==> md[i] != md[j]
  }

  /** The bytes held by a run of segments. */
  ghost function Flat(md: seq<Mbuf>): seq<byte>
    reads md`data
  {
    if md == [] then [] else Flat(md[..|md| - 1]) + md[|md| - 1].data
  }

  /** Segment m is filled, not longer than allowed, and linked to `next`. */
  ghost predicate Filled(m: Mbuf, most: nat, next: Mbuf?)
    reads m`data, m`dataLen, m`next
  {
    m.dataLen == |m.data| <= most && m.next == next
  }

  function Successor(md: seq<Mbuf>, j: nat): Mbuf?
    requires j < |md|
  {
    if j + 1 == |md| then null else md[j + 1]
  }

  lemma ConcatStep(s: seq<seq<byte>>, i: nat)
    requires i < |s|
    ensures Concat(s[..i + 1]) == Concat(s[..i]) + s[i]
  {
    assert s[..i + 1][..i] == s[..i];
  }

  lemma Nothing()
    ensures Concat([]) == [] && Sum([]) == 0 && Flat([]) == []
  {}

  /** Bytes of the source consumed when reading stands before byte off of segment s. */
  ghost function Consumed(src: seq<seq<byte>>, s: nat, off: nat): seq<byte>
    requires s <= |src| && (if s < |src| then off <= |src[s]| else off == 0)
  {
    Concat(src[..s]) + (if s < |src| then src[s][..off] else [])
  }

  /** The segments below i are filled and linked, and the first took what it could. */
  ghost predicate SoFar(src: seq<seq<byte>>, md: seq<Mbuf>, seglen: seq<nat>, i: nat)
    reads md
  {
    && i <= |md| == |seglen|
    && (forall j :: 0 <= j < i ==> Filled(md[j], seglen[j], Successor(md, j)))
    && (i > 0 ==> src != [] && |md[0].data| == Min(seglen[0], |src[0]|))
  }

  lemma NothingYet(src: seq<seq<byte>>, md: seq<Mbuf>, seglen: seq<nat>)
    requires |md| == |seglen|
    ensures SoFar(src, md, seglen, 0)
  {}

  lemma SoFarMeans(src: seq<seq<byte>>, md: seq<Mbuf>, seglen: seq<nat>, i: nat)
    requires SoFar(src, md, seglen, i)
    ensures forall j :: 0 <= j < i ==> Filled(md[j], seglen[j], Successor(md, j))
    ensures i > 0 ==> src != [] && |md[0].data| == Min(seglen[0], |src[0]|)
  {}

  // ----- which sources go into which segments -----

  /** The segments from a up to b hold one segment of the source. An empty one takes a segment, too. */
  ghost predicate Holds(seglen: seq<nat>, a: nat, b: nat, bytes: seq<byte>) {
    a < b <= |seglen| && Sum(seglen[..a]) + |bytes| <= Sum(seglen[..b])
  }

  /** Behind cuts[k] the destination holds segment k of the source, for those below s. */
  ghost predicate Cut(src: seq<seq<byte>>, seglen: seq<nat>, cuts: seq<nat>, s: nat) {
    && |cuts| == s + 1 <= |src| + 1 && cuts[0] == 0
    && forall k :: 0 <= k < s ==> Holds(seglen, cuts[k], cuts[k + 1], src[k])
  }

  /** The destination can be cut into runs, one for each segment of the source and at least as long. */
  ghost predicate Fits(src: seq<seq<byte>>, seglen: seq<nat>) {
    exists cuts :: Cut(src, seglen, cuts, |src|)
  }

  /** No way to cut the destination reaches segment s of the source before `start`. */
  ghost predicate Earliest(src: seq<seq<byte>>, seglen: seq<nat>, s: nat, start: nat) {
    s <= |src| && forall cuts :: Cut(src, seglen, cuts, |src|) ==> start <= cuts[s]
  }

  /** Reading stands before byte `from` of segment s of the source, if that is begun, writing before
      segment i of the destination. */
  ghost predicate Reached(src: seq<seq<byte>>, seglen: seq<nat>, cuts: seq<nat>, s: nat, from: nat, i: nat) {
    && Cut(src, seglen, cuts, s) && cuts[s] <= i <= |seglen| && Earliest(src, seglen, s, cuts[s])
    && Sum(seglen[..cuts[s]]) + from == Sum(seglen[..i])
    && (i > cuts[s] ==> s < |src| && from < |src[s]|)
  }

  lemma ReachedFirst(src: seq<seq<byte>>, seglen: seq<nat>)
    ensures Reached(src, seglen, [0], 0, 0, 0)
  {}

  /** One segment of the destination more. */
  lemma ReachedNext(src: seq<seq<byte>>, seglen: seq<nat>, cuts: seq<nat>, s: nat, from: nat, i: nat, len: nat)
    requires Reached(src, seglen, cuts, s, from, i) && s < |src| && i < |seglen| && from <= |src[s]|
    requires len == Min(seglen[i], |src[s]| - from)
    ensures from + len < |src[s]| ==> Reached(src, seglen, cuts, s, from + len, i + 1)
    ensures from + len == |src[s]| ==> Reached(src, seglen, cuts + [i + 1], s + 1, 0, i + 1)
  {
    SumStep(seglen, i);
    if from + len == |src[s]| {
      forall other | Cut(src, seglen, other, |src|)
        ensures i + 1 <= other[s + 1]
      {
        assert Holds(seglen, other[s], other[s + 1], src[s]);
        if other[s + 1] <= i {
          SumMonotone(seglen, cuts[s], other[s]);
          SumMonotone(seglen, other[s + 1], i);
          assert false;
        }
      }
    }
  }

  /** At the end of the source the destination was cut; at the end of the destination it cannot be. */
  lemma ReachedEnd(src: seq<seq<byte>>, seglen: seq<nat>, cuts: seq<nat>, s: nat, from: nat, i: nat)
    requires Reached(src, seglen, cuts, s, from, i) && (s < |src| ==> i == |seglen|)
    ensures s == |src| <==> Fits(src, seglen)
  {
    if s < |src| && Fits(src, seglen) {
      var other :| Cut(src, seglen, other, |src|);
      assert Holds(seglen, other[s], other[s + 1], src[s]);
      SumMonotone(seglen, cuts[s], other[s]);
      SumMonotone(seglen, other[s + 1], i);
      assert false;
    }
  }

  /** A source in one segment fits when the destination is long enough altogether. */
  lemma FitsOne(bytes: seq<byte>, seglen: seq<nat>)
    requires seglen != []
    ensures Fits([bytes], seglen) <==> |bytes| <= Sum(seglen)
  {
    var n := |seglen|;
    assert seglen[..n] == seglen && seglen[..0] == [] && Sum([]) == 0;
    if |bytes| <= Sum(seglen) {
      assert Cut([bytes], seglen, [0, n], 1);
    }
    if Fits([bytes], seglen) {
      var cuts :| Cut([bytes], seglen, cuts, 1);
      assert Holds(seglen, cuts[0], cuts[1], bytes);
      SumMonotone(seglen, cuts[1], n);
    }
  }

  /** A source that fits is not longer than its destination. */
  lemma {:induction false} CutHolds(src: seq<seq<byte>>, seglen: seq<nat>, cuts: seq<nat>, s: nat)
    requires Cut(src, seglen, cuts, s)
    ensures cuts[s] <= |seglen| && |Concat(src[..s])| <= Sum(seglen[..cuts[s]])
  {
    assert src[..0] == [] && seglen[..0] == [];
    if s > 0 {
      CutHolds(src, seglen, cuts[..s], s - 1);
      ConcatStep(src, s - 1);
      assert Holds(seglen, cuts[s - 1], cuts[s], src[s - 1]);
    }
  }

  lemma FitsIsRoom(src: seq<seq<byte>>, seglen: seq<nat>)
    requires Fits(src, seglen)
    ensures |Concat(src)| <= Sum(seglen)
  {
    var cuts :| Cut(src, seglen, cuts, |src|);
    CutHolds(src, seglen, cuts, |src|);
    assert src[..|src|] == src && seglen[..|seglen|] == seglen;
    SumMonotone(seglen, cuts[|src|], |seglen|);
  }

  lemma RunOf(src: seq<seq<byte>>, seglen: seq<nat>, cuts: seq<nat>, k: nat)
    requires k < |src| && Cut(src, seglen, cuts, |src|)
    ensures Holds(seglen, cuts[k], cuts[k + 1], src[k])
  {}

  /** Segments of two bytes and one byte hold three bytes, but not a segment of one and one of two. */
  lemma SegmentsDoNotMix()
    ensures !Fits([[7], [8, 9]], [2, 1]) && Fits([[7, 8], [9]], [2, 1]) && Fits([[7, 8, 9]], [2, 1])
  {
    var d: seq<nat> := [2, 1];
    assert d[..0] == [] && d[..1] == [2] && d[..2] == d && Sum(d[..0]) == 0;
    SumStep(d, 0);
    SumStep(d, 1);
    assert Cut([[7, 8], [9]], d, [0, 1, 2], 2);
    assert Cut([[7, 8, 9]], d, [0, 2], 1);
    forall cuts | Cut([[7], [8, 9]], d, cuts, 2)
      ensures false
    {
      RunOf([[7], [8, 9]], d, cuts, 1);
    }
  }

  /** mbuf_copy_split(): returns the number of segments or a negative error. */
  method MbufCopySplit(src: seq<seq<byte>>, pktLen: nat, md: seq<Mbuf>, seglen: seq<nat>)
    returns (rc: int, ghost used: nat, ghost copied: seq<byte>)
    requires |md| == |seglen| && |md| > 0 && Distinct(md)
    modifies md
    ensures used <= |md| && copied == Flat(md[..used]) && copied <= Concat(src)
    ensures forall j :: 0 <= j < used ==> Filled(md[j], seglen[j], Successor(md, j))
    // the first segment takes as much of the first source segment as it may
    ensures src != [] ==> used > 0 && |md[0].data| == Min(seglen[0], |src[0]|)
    ensures rc >= 0 ==> rc == |md| && copied == Concat(src) && |copied| == pktLen
    ensures rc >= 0 ==> md[0].nbSegs == |md| && md[0].pktLen == pktLen
    ensures rc < 0 ==> rc == -ENOBUFS || rc == -EINVAL
    // out of segments: all of them are in use and the source is not exhausted
    ensures rc == -ENOBUFS ==> used == |md|
    ensures rc == -EINVAL ==> copied == Concat(src) && |copied| != pktLen
    // a segment of the destination never holds bytes of two segments of the source
    ensures rc == -ENOBUFS <==> !Fits(src, seglen)
  {
    hide Concat, Sum, Flat, Consumed, SoFar, Reached, Fits, Cut;
    ghost var cuts: seq<nat> := [0];
    ReachedFirst(src, seglen);
    var s: nat, i: nat := 0, 0;
    var slen: nat, dlen: nat, tlen: nat := 0, 0, 0;
    var from: nat, at: nat := 0, 0;
    Nothing();
    ConsumedEnds(src);
    NothingYet(src, md, seglen);
    assert md[..0] == [] && seglen[..0] == [];
    while s < |src| && i != |md|
      invariant 0 <= s <= |src| && 0 <= i <= |md| && dlen == 0
      invariant i == 0 ==> s == 0 && slen == 0
      invariant s == |src| ==> slen == 0
      invariant s < |src| ==> slen <= |src[s]|
      invariant slen > 0 ==> from == |src[s]| - slen
      invariant Flat(md[..i]) == Consumed(src, s, if slen > 0 then from else 0)
      invariant tlen == |Flat(md[..i])|
      invariant SoFar(src, md, seglen, i)
      invariant Reached(src, seglen, cuts, s, if slen > 0 then from else 0, i)
      decreases |md| - i
    {
      if slen == 0 {
        slen := |src[s]|;
        from := 0;
      }
      if dlen == 0 {
        dlen := Min(seglen[i], slen);
        StartSegment(src, md, seglen, i, dlen);
        at := 0;
      }
      var len := Min(slen, dlen);
      CopyInto(src, md[i], md, seglen, i, at, src[s][from..from + len]);
      ConsumeStep(src, s, from, len);
      ReachedNext(src, seglen, cuts, s, from, i, len);
      tlen := tlen + len;
      slen := slen - len;
      dlen := dlen - len;
      from := from + len;
      at := at + len;
      if slen == 0 {
        s := s + 1;
        cuts := cuts + [i + 1];
      }
      if dlen == 0 {
        i := i + 1;
      }
    }
    ConsumedIsPrefix(src, s, if slen > 0 then from else 0);
    ReachedEnd(src, seglen, cuts, s, if slen > 0 then from else 0, i);
    SoFarMeans(src, md, seglen, i);
    used, copied := i, Flat(md[..i]);
    assert md[..|md|] == md;
    if s < |src| {
      return -ENOBUFS, used, copied;
    }
    if tlen != pktLen {
      return -EINVAL, used, copied;
    }
    md[0].nbSegs := |md|;
    md[0].pktLen := tlen;
    rc := |md|;
  }

  /** data_len, next and the write pointer of a segment. */
  method StartSegment(ghost src: seq<seq<byte>>, md: seq<Mbuf>, ghost seglen: seq<nat>, i: nat, dlen: nat)
    requires i < |md| && Distinct(md) && SoFar(src, md, seglen, i)
    modifies md[i]
    ensures SoFar(src, md, seglen, i)
    ensures md[i].dataLen == dlen && md[i].next == Successor(md, i) && md[i].data == []
    ensures Flat(md[..i]) == old(Flat(md[..i]))
  {
    md[i].dataLen := dlen;
    md[i].next := Successor(md, i);
    md[i].data := [];
  }

  /** memcpy(dst, src, len) */
  method CopyInto(ghost src: seq<seq<byte>>, m: Mbuf, ghost md: seq<Mbuf>, ghost seglen: seq<nat>, ghost i: nat,
                  at: nat, bytes: seq<byte>)
    requires i < |md| == |seglen| && Distinct(md) && m == md[i] && at == 0 == |m.data|
    requires SoFar(src, md, seglen, i) && (i == 0 ==> src != [] && |bytes| == Min(seglen[0], |src[0]|))
    requires m.dataLen == |bytes| <= seglen[i] && m.next == Successor(md, i)
    modifies m`data
    ensures SoFar(src, md, seglen, i + 1)
    ensures Flat(md[..i + 1]) == old(Flat(md[..i])) + bytes
  {
    m.data := m.data[..at] + bytes;
    FlatStep(md, i);
    assert m.data == bytes;
  }

  lemma FlatStep(md: seq<Mbuf>, i: nat)
    requires i < |md|
    ensures Flat(md[..i + 1]) == Flat(md[..i]) + md[i].data
  {
    assert md[..i + 1][..i] == md[..i];
  }

  lemma ConsumedEnds(src: seq<seq<byte>>)
    ensures Consumed(src, 0, 0) == [] && Consumed(src, |src|, 0) == Concat(src)
  {
    assert src[..0] == [] && src[..|src|] == src;
  }

  lemma ConsumeStep(src: seq<seq<byte>>, s: nat, off: nat, len: nat)
    requires s < |src| && off + len <= |src[s]|
    ensures Consumed(src, s, off) + src[s][off..off + len] == Consumed(src, s, off + len)
    ensures Consumed(src, s, |src[s]|) == Consumed(src, s + 1, 0)
  {
    assert src[s][..off + len] == src[s][..off] + src[s][off..off + len];
    assert src[s][..|src[s]|] == src[s];
    ConcatStep(src, s);
    if s + 1 < |src| {
      assert src[s + 1][..0] == [];
    }
  }

  lemma {:induction false} ConsumedIsPrefix(src: seq<seq<byte>>, s: nat, off: nat)
    requires s <= |src| && (if s < |src| then off <= |src[s]| else off == 0)
    ensures Consumed(src, s, off) <= Concat(src)
    decreases |src| - s
  {
    if s < |src| {
      ConsumedIsPrefix(src, s + 1, 0);
      ConsumeStep(src, s, off, |src[s]| - off);
    } else {
      assert src[..s] == src;
    }
  }

  // ----- planning and allocating the destination -----

  /** The lengths planned for a packet: the configured ones, as many as it takes, the last one
      stretched to the rest of the packet. It is a uint16_t. */
  ghost predicate PlanOf(pktLen: nat, lens: seq<nat>, seglen: seq<nat>) {
    && 0 < |seglen| <= |lens|
    && seglen[..|seglen| - 1] == lens[..|seglen| - 1]
    && Sum(lens[..|seglen| - 1]) < pktLen
    && (|seglen| < |lens| ==> pktLen <= Sum(lens[..|seglen|]))
    && seglen[|seglen| - 1] ==
       if Sum(lens[..|seglen|]) <= pktLen then (lens[|seglen| - 1] + (pktLen - Sum(lens[..|seglen|]))) % 0x1_0000
       else lens[|seglen| - 1]
  }

  method PlanSegments(pktLen: nat, lens: seq<nat>) returns (seglen: seq<nat>)
    requires pktLen > 0 && lens != []
    ensures PlanOf(pktLen, lens, seglen)
  {
    var i, len := 0, 0;
    assert lens[..0] == [];
    while i != |lens| && len < pktLen
      invariant 0 <= i <= |lens| && len == Sum(lens[..i])
      invariant i > 0 ==> Sum(lens[..i - 1]) < pktLen
      decreases |lens| - i
    {
      SumStep(lens, i);
      len := len + lens[i];
      i := i + 1;
    }
    seglen := lens[..i];
    var n := pktLen - len;
    if n >= 0 {
      seglen := seglen[i - 1 := (seglen[i - 1] + n) % 0x1_0000];
    }
  }

  /** The stretched length still fits its 16 bits. */
  ghost predicate LastFits(lens: seq<nat>, nb: nat, pktLen: nat)
    requires 0 < nb <= |lens|
  {
    Sum(lens[..nb]) <= pktLen ==> lens[nb - 1] + (pktLen - Sum(lens[..nb])) < 0x1_0000
  }

  /** The plan has room for the packet exactly when the last length did not wrap, and one segment
      less would not do. */
  lemma {:induction false} PlanCovers(pktLen: nat, lens: seq<nat>, seglen: seq<nat>)
    requires PlanOf(pktLen, lens, seglen)
    ensures pktLen <= Sum(seglen) <==> LastFits(lens, |seglen|, pktLen)
    ensures Sum(seglen[..|seglen| - 1]) < pktLen
  {
    var nb := |seglen|;
    SumStep(seglen, nb - 1);
    SumStep(lens, nb - 1);
    assert seglen[..nb] == seglen;
    var all := lens[nb - 1] + (pktLen - Sum(lens[..nb]));
    if Sum(lens[..nb]) <= pktLen {
      assert all == pktLen - Sum(lens[..nb - 1]);
      assert Sum(seglen) == Sum(lens[..nb - 1]) + all % 0x1_0000;
      ModBelow(all);
    }
  }

  /** A packet of 2^16 bytes, to go into one segment, is planned into a segment of no bytes. */
  lemma WrappedPlan()
    ensures PlanOf(0x1_0000, [100], [0]) && Sum([0]) == 0
  {
    assert [100][..0] == [] && [0][..0] == [] && [100][..1] == [100];
    SumStep([100], 0);
    assert Sum([]) == 0;
  }

  lemma ModBelow(n: nat)
    ensures n <= n % 0x1_0000 <==> n < 0x1_0000
  {}

  lemma {:induction false} FlatBound(md: seq<Mbuf>, seglen: seq<nat>)
    requires |md| == |seglen| && forall j :: 0 <= j < |md| ==> |md[j].data| <= seglen[j]
    ensures |Flat(md)| <= Sum(seglen)
  {
    if md != [] {
      FlatBound(md[..|md| - 1], seglen[..|md| - 1]);
    }
  }

  /** A complete copy leaves no planned segment unused. */
  lemma {:induction false} AllUsed(md: seq<Mbuf>, seglen: seq<nat>, used: nat, pktLen: nat)
    requires used <= |md| == |seglen| && |md| > 0
    requires forall j :: 0 <= j < used ==> |md[j].data| <= seglen[j]
    requires |Flat(md[..used])| == pktLen && Sum(seglen[..|seglen| - 1]) < pktLen
    ensures used == |md|
  {
    FlatBound(md[..used], seglen[..used]);
    if used < |md| {
      SumMonotone(seglen, used, |md| - 1);
      assert false;
    }
  }

  /** The packet pool: which segments are out. */
  class Pool {
    ghost var taken: set<Mbuf>

    /** rte_pktmbuf_alloc(): the answer says whether there is a segment and how roomy it is. */
    method Alloc(answer: Option<nat>) returns (m: Mbuf?)
      modifies this
      ensures m != null <==> answer.Some?
      ensures m != null ==> fresh(m) && m.tailroom == answer.value && taken == old(taken) + {m}
      ensures m == null ==> taken == old(taken)
    {
      m := null;
      if answer.Some? {
        m := new Mbuf(answer.value);
        taken := taken + {m};
      }
    }

    method FreeSeg(m: Mbuf)
      modifies this
      ensures taken == old(taken) - {m}
    {
      taken := taken - {m};
    }
  }

  /** Where the allocation loop stops when it goes down from segment i: at 0 it counts as complete. */
  function AllocStop(answers: seq<Option<nat>>, seglen: seq<nat>, i: nat): nat
    requires i <= |answers| == |seglen|
  {
    if i == 0 then 0
    else if answers[i - 1].None? then i
    else if answers[i - 1].value < seglen[i - 1] then i - 1
    else AllocStop(answers, seglen, i - 1)
  }

  /** A first segment without enough tail room is not noticed: the loop looks complete exactly when
      every segment was granted and every one but the first is roomy enough. */
  lemma {:induction false} AllocCompleteIff(answers: seq<Option<nat>>, seglen: seq<nat>, i: nat)
    requires i <= |answers| == |seglen|
    ensures AllocStop(answers, seglen, i) == 0 <==>
      forall j :: 0 <= j < i ==> answers[j].Some? && (j > 0 ==> seglen[j] <= answers[j].value)
  {
    if i > 0 && answers[i - 1].Some? && answers[i - 1].value >= seglen[i - 1] {
      AllocCompleteIff(answers, seglen, i - 1);
    }
  }

  ghost function Set(md: seq<Mbuf>): set<Mbuf> {
    set m | m in md
  }

  /** The allocation loop; md holds the segments from i on. */
  method AllocAll(pool: Pool, seglen: seq<nat>, answers: seq<Option<nat>>) returns (i: nat, md: seq<Mbuf>)
    requires |answers| == |seglen|
    modifies pool
    ensures i == AllocStop(answers, seglen, |seglen|) && i + |md| == |seglen|
    ensures Distinct(md) && (forall m :: m in md ==> fresh(m))
    ensures pool.taken == old(pool.taken) + Set(md)
    ensures forall j :: 0 <= j < |md| ==> answers[i + j] == Some(md[j].tailroom)
  {
    i, md := |seglen|, [];
    while i != 0
      invariant i + |md| == |seglen|
      invariant AllocStop(answers, seglen, i) == AllocStop(answers, seglen, |seglen|)
      invariant Distinct(md) && (forall m :: m in md ==> fresh(m))
      invariant pool.taken == old(pool.taken) + Set(md)
      invariant forall j :: 0 <= j < |md| ==> answers[i + j] == Some(md[j].tailroom)
      decreases i
    {
      var p := pool.Alloc(answers[i - 1]);
      if p == null {
        break;
      }
      ghost var before := md;
      i := i - 1;
      md := [p] + md;
      assert Set(md) == {p} + Set(before);
      if p.tailroom < seglen[i] {
        break;
      }
    }
  }

  method FreeAll(pool: Pool, md: seq<Mbuf>)
    modifies pool
    ensures pool.taken == old(pool.taken) - Set(md)
  {
    var i := 0;
    while i != |md|
      invariant 0 <= i <= |md|
      invariant pool.taken == old(pool.taken) - Set(md[..i])
    {
      pool.FreeSeg(md[i]);
      assert md[..i + 1] == md[..i] + [md[i]];
      i := i + 1;
    }
    assert md[..i] == md;
  }

  /** The copied bytes stay inside their segments. */
  ghost predicate InTailroom(md: seq<Mbuf>)
    reads md`data
  {
    forall j :: 0 <= j < |md| ==> |md[j].data| <= md[j].tailroom
  }

  /** Allocation and copy for planned lengths, as pkt_copy_split() does them */
  method CopyPlanned(pool: Pool, src: seq<seq<byte>>, pktLen: nat, seglen: seq<nat>, answers: seq<Option<nat>>)
    returns (copy: Mbuf?, md: seq<Mbuf>)
    requires pktLen > 0 && |Concat(src)| == pktLen && |answers| == |seglen| > 0
    // no shorter plan covers the packet, see PlanCovers
    requires Sum(seglen[..|seglen| - 1]) < pktLen
    modifies pool
    ensures copy == null ==> pool.taken == old(pool.taken)
    ensures copy != null ==> |md| == |seglen| && copy == md[0] && pool.taken == old(pool.taken) + Set(md)
    ensures copy != null ==> Distinct(md) && forall m :: m in md ==> fresh(m)
    ensures copy != null ==> Flat(md) == Concat(src)
    ensures copy != null ==> forall j :: 0 <= j < |md| ==> Filled(md[j], seglen[j], Successor(md, j))
    ensures copy != null ==> copy.nbSegs == |md| && copy.pktLen == pktLen
    ensures copy != null ==> forall j :: 0 <= j < |md| ==> answers[j] == Some(md[j].tailroom)
    ensures copy != null ==> |src| > 0 && |copy.data| == Min(seglen[0], |src[0]|)
    ensures copy != null <==> AllocStop(answers, seglen, |seglen|) == 0 && Fits(src, seglen)
  {
    var i;
    copy := null;
    ghost var taken := pool.taken;
    i, md := AllocAll(pool, seglen, answers);
    assert forall m :: m in md ==> m !in taken;
    if i != 0 {
      FreeAll(pool, md);
      return;
    }
    forall j | 0 <= j < |md|
      ensures fresh(md[j])
    {
      assert md[j] in md;
    }
    var rc;
    ghost var used, copied;
    rc, used, copied := MbufCopySplit(src, pktLen, md, seglen);
    if rc < 0 {
      FreeAll(pool, md);
      return;
    }
    AllUsed(md, seglen, used, pktLen);
    assert md[..used] == md;
    copy := md[0];
  }

  /** The pool has every planned segment; all but the first are roomy enough. */
  ghost predicate Granted(answers: seq<Option<nat>>, seglen: seq<nat>) {
    && |seglen| <= |answers|
    && forall j :: 0 <= j < |seglen| ==> answers[j].Some? && (j > 0 ==> seglen[j] <= answers[j].value)
  }

  /** pkt_copy_split(): the copy, or null. answers[j] is what the pool says about segment j. */
  method PktCopySplit(pool: Pool, src: seq<seq<byte>>, pktLen: nat, lens: seq<nat>, answers: seq<Option<nat>>)
    returns (copy: Mbuf?, md: seq<Mbuf>, ghost seglen: seq<nat>)
    requires pktLen > 0 && |Concat(src)| == pktLen && |answers| == |lens| > 0
    modifies pool
    ensures PlanOf(pktLen, lens, seglen)
    // a failed copy leaves the pool as it was, a successful one took exactly its segments
    ensures copy == null ==> pool.taken == old(pool.taken)
    ensures copy != null ==> |md| == |seglen| && copy == md[0] && pool.taken == old(pool.taken) + Set(md)
    ensures copy != null ==> Distinct(md) && forall m :: m in md ==> fresh(m)
    // the same bytes, in a properly linked chain, each segment within its planned length
    ensures copy != null ==> Flat(md) == Concat(src)
    ensures copy != null ==> forall j :: 0 <= j < |md| ==> Filled(md[j], seglen[j], Successor(md, j))
    ensures copy != null ==> copy.nbSegs == |md| && copy.pktLen == pktLen
    ensures copy != null ==> forall j :: 0 <= j < |md| ==> answers[j] == Some(md[j].tailroom)
    // they stay inside the segments exactly when the first one has room for its part
    ensures copy != null ==> src != [] && answers[0].Some?
    ensures copy != null ==> (InTailroom(md) <==> Min(seglen[0], |src[0]|) <= answers[0].value)
    // it is copied exactly when the segments are there and can be cut into runs for those of the packet
    ensures copy != null <==> Granted(answers, seglen) && Fits(src, seglen)
    // which takes a last length that did not wrap, and for a packet in one segment no more
    ensures copy != null ==> LastFits(lens, |seglen|, pktLen)
    ensures |src| == 1 && Granted(answers, seglen) && LastFits(lens, |seglen|, pktLen) ==> copy != null
  {
    hide Concat, Flat, Sum, Fits;
    var plan := PlanSegments(pktLen, lens);
    seglen := plan;
    PlanCovers(pktLen, lens, plan);
    AllocCompleteIff(answers[..|plan|], plan, |plan|);
    OneSegment(src);
    if |src| == 1 {
      FitsOne(src[0], plan);
      assert src == [src[0]];
    }
    if Fits(src, plan) {
      FitsIsRoom(src, plan);
    }
    copy, md := CopyPlanned(pool, src, pktLen, plan, answers[..|plan|]);
    if copy != null {
      assert |md[0].data| == Min(plan[0], |src[0]|);
    }
  }

  /** A packet of two bytes goes into a first segment with room for one. */
  method OverrunFirstSegment(pool: Pool) returns (copy: Mbuf?)
    modifies pool
    ensures copy != null && copy.tailroom == 1 && copy.data == [7, 8]
  {
    var src: seq<seq<byte>> := [[7, 8]];
    OneSegment(src);
    var md;
    ghost var seglen;
    copy, md, seglen := PktCopySplit(pool, src, 2, [2], [Some(1)]);
    AllocCompleteIff([Some(1)][..1], seglen, 1);
    assert [2][..1] == [2] && [2][..0] == [];
    Nothing();
    SumStep([2], 0);
    FlatStep(md, 0);
    assert md[..1] == md && md[..0] == [];
  }

  lemma OneSegment(src: seq<seq<byte>>)
    ensures |src| == 1 ==> Concat(src) == src[0]
  {
    if |src| == 1 {
      assert src[..0] == [];
    }
  }
}
