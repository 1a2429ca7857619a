/** What bit deposits mean as numbers, and the VLAN tag control fields of the flow parser. */
module BitFields {

  import opened BitFill

  ghost function Read(bytes: seq<bv8>, p: Pos): nat {
    if p.byte < |bytes| && p.bit < 8 && Bit(bytes[p.byte], p.bit) then 1 else 0
  }

  /** Reads the positions back as a number, first position least significant. */
  ghost function Gather(bytes: seq<bv8>, ps: seq<Pos>): nat {
    if ps == [] then 0 else Read(bytes, ps[0]) + 2 * Gather(bytes, ps[1..])
  }

  lemma MulAtLeast(d: nat, x: nat)
    requires x >= 1
    ensures d * x >= d
  {}

  lemma ModUnique(n: nat, d: nat, q: nat, r: nat)
    requires d > 0 && n == d * q + r && r < d
    ensures n % d == r && n / d == q
  {
    var q', r' := n / d, n % d;
    assert d * q' + r' == d * q + r;
    if q' < q {
      MulAtLeast(d, q - q');
      assert false;
    } else if q < q' {
      MulAtLeast(d, q' - q);
      assert false;
    }
  }

  /** The low n + 1 bits are the lowest bit and the low n bits of the half. */
  lemma ModDouble(v: nat, n: nat)
    ensures v % Pow2(n + 1) == v % 2 + 2 * ((v / 2) % Pow2(n))
  {
    var p := Pow2(n);
    var q, r := (v / 2) / p, (v / 2) % p;
    assert v / 2 == p * q + r;
    assert v == (2 * p) * q + (2 * r + v % 2) by {
      assert 2 * (p * q) == (2 * p) * q;
    }
    ModUnique(v, 2 * p, q, 2 * r + v % 2);
  }

  lemma {:induction false} GatherFrom(mask: seq<bv8>, hton: bool, bytes: seq<bv8>, val: nat, k: nat)
    requires Holds(mask, hton, bytes, val) && k <= |Positions(mask, hton)|
    ensures Gather(bytes, Positions(mask, hton)[k..]) == Shr(val, k) % Pow2(|Positions(mask, hton)| - k)
    decreases |Positions(mask, hton)| - k
  {
    hide Bit, Positions;
    var ps := Positions(mask, hton);
    if k < |ps| {
      GatherFrom(mask, hton, bytes, val, k + 1);
      assert ps[k..][1..] == ps[k + 1..] && ps[k..][0] == ps[k];
      assert InMask(mask, ps[k]) && BitAt(bytes, ps[k]) == ValueBit(val, k);
      ShrStep(val, k);
      ModDouble(Shr(val, k), |ps| - k - 1);
    }
  }

  /** Gathering the bits of the mask yields the value modulo two to their number. */
  lemma {:induction false} GatherInvertsDeposit(mask: seq<bv8>, hton: bool, bytes: seq<bv8>, val: nat)
    requires Holds(mask, hton, bytes, val)
    ensures Gather(bytes, Positions(mask, hton)) == val % Pow2(|Positions(mask, hton)|)
  {
    GatherFrom(mask, hton, bytes, val, 0);
    assert Positions(mask, hton)[0..] == Positions(mask, hton);
  }

  // ----- several fills of the same bytes -----

  datatype Fill = Fill(mask: seq<bv8>, val: nat)

  ghost predicate DisjointMasks(a: seq<bv8>, b: seq<bv8>) {
    && |a| == |b|
    && forall i, s :: 0 <= i < |a| && 0 <= s < 8 ==> !(Bit(a[i], s) && Bit(b[i], s))
  }

  /** states[i + 1] is states[i] after the i-th fill. */
  ghost predicate FillRun(hton: bool, fills: seq<Fill>, states: seq<seq<bv8>>) {
    && |states| == |fills| + 1
    && forall i :: 0 <= i < |fills| ==> Deposited(fills[i].mask, hton, states[i], states[i + 1], fills[i].val)
  }

  lemma {:induction false} HoldsKept(mask: seq<bv8>, hton: bool, val: nat, other: seq<bv8>, otherVal: nat,
                                     before: seq<bv8>, after: seq<bv8>)
    requires Holds(mask, hton, before, val) && DisjointMasks(mask, other)
    requires Deposited(other, hton, before, after, otherVal)
    ensures Holds(mask, hton, after, val)
  {
    var ps := Positions(mask, hton);
    forall k | 0 <= k < |ps|
      ensures InMask(mask, ps[k]) && BitAt(after, ps[k]) == ValueBit(val, k)
    {
      var p := ps[k];
      assert InMask(mask, p) && BitAt(before, p) == ValueBit(val, k);
      assert !Bit(other[p.byte], p.bit);
    }
  }

  lemma DepositHolds(mask: seq<bv8>, hton: bool, before: seq<bv8>, after: seq<bv8>, val: nat)
    requires Deposited(mask, hton, before, after, val)
    ensures Holds(mask, hton, after, val)
  {}

  /** Fills with disjoint masks do not disturb each other, in whatever order they come. */
  lemma {:induction false} FillsAreIndependent(hton: bool, fills: seq<Fill>, states: seq<seq<bv8>>, i: nat)
    requires FillRun(hton, fills, states) && i < |fills|
    requires forall x, y :: 0 <= x < y < |fills| ==> DisjointMasks(fills[x].mask, fills[y].mask)
    ensures Holds(fills[i].mask, hton, states[|fills|], fills[i].val)
    decreases |fills|
  {
    hide Bit, Deposited, DisjointMasks, Holds;
    var n := |fills| - 1;
    assert Deposited(fills[n].mask, hton, states[n], states[n + 1], fills[n].val);
    if i == n {
      DepositHolds(fills[n].mask, hton, states[n], states[n + 1], fills[n].val);
    } else {
      FillsAreIndependent(hton, fills[..n], states[..n + 1], i);
      assert DisjointMasks(fills[i].mask, fills[n].mask);
      HoldsKept(fills[i].mask, hton, fills[i].val, fills[n].mask, fills[n].val, states[n], states[n + 1]);
    }
  }

  // ----- VLAN tag control information -----

  const PCP_MASK: seq<bv8> := [0xe0, 0x00]
  const DEI_MASK: seq<bv8> := [0x10, 0x00]
  const VID_MASK: seq<bv8> := [0x0f, 0xff]

  lemma ByteValue(b: bv8)
    ensures b as int == BitValue(b, 0) + 2 * BitValue(b, 1) + 4 * BitValue(b, 2) + 8 * BitValue(b, 3)
                      + 16 * BitValue(b, 4) + 32 * BitValue(b, 5) + 64 * BitValue(b, 6) + 128 * BitValue(b, 7)
  {}

  function BitValue(b: bv8, s: nat): nat
    requires s < 8
  {
    if Bit(b, s) then 1 else 0
  }

  /** The bits of the bytes these masks are made of. */
  lemma {:induction false} NoBits(i: nat)
    ensures BytePositions(i, 0x00, 0) == []
  {
    NothingLeft(i, 0x00, 0);
  }

  lemma {:induction false} DeiPositions(i: nat)
    ensures BytePositions(i, 0x10, 0) == [Pos(i, 4)]
  {
    NothingLeft(i, 0x10, 5);
    NextBit(i, 0x10, 4);
    NextBit(i, 0x10, 3);
    NextBit(i, 0x10, 2);
    NextBit(i, 0x10, 1);
    NextBit(i, 0x10, 0);
  }

  lemma {:induction false} PcpPositions(i: nat)
    ensures BytePositions(i, 0xe0, 0) == [Pos(i, 5), Pos(i, 6), Pos(i, 7)]
  {
    NothingLeft(i, 0xe0, 8);
    NextBit(i, 0xe0, 7);
    NextBit(i, 0xe0, 6);
    NextBit(i, 0xe0, 5);
    NextBit(i, 0xe0, 4);
    NextBit(i, 0xe0, 3);
    NextBit(i, 0xe0, 2);
    NextBit(i, 0xe0, 1);
    NextBit(i, 0xe0, 0);
  }

  lemma {:induction false} NibblePositions(i: nat, m: bv8)
    requires Bit(m, 0) && Bit(m, 1) && Bit(m, 2) && Bit(m, 3)
    ensures BytePositions(i, m, 0) == [Pos(i, 0), Pos(i, 1), Pos(i, 2), Pos(i, 3)] + BytePositions(i, m, 4)
  {
    hide Bit;
    NextBit(i, m, 3);
    NextBit(i, m, 2);
    NextBit(i, m, 1);
    NextBit(i, m, 0);
  }

  lemma LowNibbleBits()
    ensures Bit(0x0f, 0) && Bit(0x0f, 1) && Bit(0x0f, 2) && Bit(0x0f, 3) && !Above(0x0f, 4)
  {}

  lemma {:induction false} VidPositions(i: nat)
    ensures BytePositions(i, 0xff, 0) == Low(i) + High(i)
    ensures BytePositions(i, 0x0f, 0) == Low(i)
  {
    LowNibbleBits();
    NibblePositions(i, 0xff);
    HighPositions(i);
    NibblePositions(i, 0x0f);
    NothingLeft(i, 0x0f, 4);
    assert Low(i) + [] == Low(i);
  }

  lemma {:induction false} HighPositions(i: nat)
    ensures BytePositions(i, 0xff, 4) == High(i)
  {
    NothingLeft(i, 0xff, 8);
    NextBit(i, 0xff, 7);
    NextBit(i, 0xff, 6);
    NextBit(i, 0xff, 5);
    NextBit(i, 0xff, 4);
  }

  function Low(i: nat): seq<Pos> {
    [Pos(i, 0), Pos(i, 1), Pos(i, 2), Pos(i, 3)]
  }

  function High(i: nat): seq<Pos> {
    [Pos(i, 4), Pos(i, 5), Pos(i, 6), Pos(i, 7)]
  }

  lemma {:induction false} TwoBytePositions(m0: bv8, m1: bv8)
    ensures Positions([m0, m1], true) == BytePositions(1, m1, 0) + BytePositions(0, m0, 0)
  {
    hide BytePositions;
    var mask := [m0, m1];
    NoBytesLeft(mask, true);
    NextByte(mask, true, 1);
    NextByte(mask, true, 0);
  }

  lemma GatherStep(bytes: seq<bv8>, p: Pos, ps: seq<Pos>)
    ensures Gather(bytes, [p] + ps) == Read(bytes, p) + 2 * Gather(bytes, ps)
  {
    assert ([p] + ps)[1..] == ps;
  }

  lemma Gather3(bytes: seq<bv8>, p0: Pos, p1: Pos, p2: Pos)
    ensures Gather(bytes, [p0, p1, p2]) == Read(bytes, p0) + 2 * Read(bytes, p1) + 4 * Read(bytes, p2)
  {
    hide Read;
    GatherStep(bytes, p0, [p1, p2]);
    GatherStep(bytes, p1, [p2]);
    GatherStep(bytes, p2, []);
    assert [p0] + [p1, p2] == [p0, p1, p2] && [p1] + [p2] == [p1, p2] && [p2] + [] == [p2];
  }

  lemma Gather4(bytes: seq<bv8>, p0: Pos, p1: Pos, p2: Pos, p3: Pos)
    ensures Gather(bytes, [p0, p1, p2, p3])
         == Read(bytes, p0) + 2 * Read(bytes, p1) + 4 * Read(bytes, p2) + 8 * Read(bytes, p3)
  {
    hide Read;
    assert [p0, p1, p2, p3][1..] == [p1, p2, p3];
    Gather3(bytes, p1, p2, p3);
  }

  lemma Doubled(p: nat, g: nat)
    ensures 2 * (p * g) == (2 * p) * g
  {}

  lemma {:induction false} GatherConcat(bytes: seq<bv8>, a: seq<Pos>, b: seq<Pos>)
    ensures Gather(bytes, a + b) == Gather(bytes, a) + Pow2(|a|) * Gather(bytes, b)
  {
    hide Read;
    if a == [] {
      assert a + b == b;
    } else {
      assert (a + b)[1..] == a[1..] + b;
      GatherConcat(bytes, a[1..], b);
      Doubled(Pow2(|a| - 1), Gather(bytes, b));
    }
  }

  lemma {:induction false} PcpBits(bytes: seq<bv8>, pcp: nat)
    requires Holds(PCP_MASK, true, bytes, pcp)
    ensures BitValue(bytes[0], 5) + 2 * BitValue(bytes[0], 6) + 4 * BitValue(bytes[0], 7) == pcp % 8
  {
    hide Bit;
    TwoBytePositions(0xe0, 0x00);
    PcpPositions(0);
    NoBits(1);
    assert Positions(PCP_MASK, true) == [Pos(0, 5), Pos(0, 6), Pos(0, 7)];
    GatherInvertsDeposit(PCP_MASK, true, bytes, pcp);
    Gather3(bytes, Pos(0, 5), Pos(0, 6), Pos(0, 7));
    assert Pow2(3) == 8;
  }

  lemma {:induction false} DeiBit(bytes: seq<bv8>, dei: nat)
    requires Holds(DEI_MASK, true, bytes, dei)
    ensures BitValue(bytes[0], 4) == dei % 2
  {
    hide Bit;
    TwoBytePositions(0x10, 0x00);
    DeiPositions(0);
    NoBits(1);
    assert Positions(DEI_MASK, true) == [Pos(0, 4)];
    GatherInvertsDeposit(DEI_MASK, true, bytes, dei);
    assert [Pos(0, 4)][1..] == [];
    assert Pow2(1) == 2;
  }

  lemma {:induction false} VidBits(bytes: seq<bv8>, vid: nat)
    requires Holds(VID_MASK, true, bytes, vid)
    ensures bytes[1] as int + 256 * (BitValue(bytes[0], 0) + 2 * BitValue(bytes[0], 1) + 4 * BitValue(bytes[0], 2)
                                     + 8 * BitValue(bytes[0], 3)) == vid % 4096
  {
    hide Bit, BytePositions;
    TwoBytePositions(0x0f, 0xff);
    VidPositions(0);
    VidPositions(1);
    assert Positions(VID_MASK, true) == (Low(1) + High(1)) + Low(0);
    GatherInvertsDeposit(VID_MASK, true, bytes, vid);
    GatherConcat(bytes, Low(1) + High(1), Low(0));
    GatherByte(bytes, 1);
    Gather4(bytes, Pos(0, 0), Pos(0, 1), Pos(0, 2), Pos(0, 3));
    SmallPowers();
  }

  lemma SmallPowers()
    ensures Pow2(4) == 16 && Pow2(8) == 256 && Pow2(12) == 4096
  {
    assert Pow2(4) == 16;
    assert Pow2(6) == 64;
    assert Pow2(8) == 256;
    assert Pow2(10) == 1024;
  }

  lemma {:induction false} GatherByte(bytes: seq<bv8>, i: nat)
    requires i < |bytes|
    ensures Gather(bytes, Low(i) + High(i)) == bytes[i] as int
  {
    hide Bit, Gather, Pow2;
    var b := bytes[i];
    assert Read(bytes, Pos(i, 0)) == BitValue(b, 0) && Read(bytes, Pos(i, 1)) == BitValue(b, 1);
    assert Read(bytes, Pos(i, 2)) == BitValue(b, 2) && Read(bytes, Pos(i, 3)) == BitValue(b, 3);
    assert Read(bytes, Pos(i, 4)) == BitValue(b, 4) && Read(bytes, Pos(i, 5)) == BitValue(b, 5);
    assert Read(bytes, Pos(i, 6)) == BitValue(b, 6) && Read(bytes, Pos(i, 7)) == BitValue(b, 7);
    LowHigh(bytes, i);
    ByteValue(b);
  }

  lemma {:induction false} LowHigh(bytes: seq<bv8>, i: nat)
    ensures Gather(bytes, Low(i) + High(i)) ==
      Read(bytes, Pos(i, 0)) + 2 * Read(bytes, Pos(i, 1)) + 4 * Read(bytes, Pos(i, 2)) + 8 * Read(bytes, Pos(i, 3))
      + 16 * (Read(bytes, Pos(i, 4)) + 2 * Read(bytes, Pos(i, 5))
              + 4 * Read(bytes, Pos(i, 6)) + 8 * Read(bytes, Pos(i, 7)))
  {
    hide Bit, Gather, Pow2, Read;
    GatherConcat(bytes, Low(i), High(i));
    Gather4(bytes, Pos(i, 0), Pos(i, 1), Pos(i, 2), Pos(i, 3));
    Gather4(bytes, Pos(i, 4), Pos(i, 5), Pos(i, 6), Pos(i, 7));
    SmallPowers();
  }

  /** Setting PCP, DEI and VID in any order builds the 16-bit tag, whatever was there before:
      i, j and k say when each of them was set. */
  lemma {:induction false} VlanTci(fills: seq<Fill>, states: seq<seq<bv8>>, i: nat, j: nat, k: nat,
                                   pcp: nat, dei: nat, vid: nat)
    requires |fills| == 3 && FillRun(true, fills, states)
    requires i < 3 && j < 3 && k < 3 && i != j && j != k && i != k
    requires fills[i] == Fill(PCP_MASK, pcp) && fills[j] == Fill(DEI_MASK, dei) && fills[k] == Fill(VID_MASK, vid)
    ensures |states[3]| == 2
    ensures states[3][0] as int * 256 + states[3][1] as int == (pcp % 8) * 8192 + (dei % 2) * 4096 + vid % 4096
  {
    hide Bit, Holds, Deposited;
    VlanMasksDisjoint();
    FillsAreIndependent(true, fills, states, i);
    FillsAreIndependent(true, fills, states, j);
    FillsAreIndependent(true, fills, states, k);
    TciValue(states[3], pcp, dei, vid);
  }

  lemma {:induction false} TciValue(tci: seq<bv8>, pcp: nat, dei: nat, vid: nat)
    requires Holds(PCP_MASK, true, tci, pcp) && Holds(DEI_MASK, true, tci, dei) && Holds(VID_MASK, true, tci, vid)
    ensures |tci| == 2
    ensures tci[0] as int * 256 + tci[1] as int == (pcp % 8) * 8192 + (dei % 2) * 4096 + vid % 4096
  {
    hide Bit, Positions;
    PcpBits(tci, pcp);
    DeiBit(tci, dei);
    VidBits(tci, vid);
    ByteValue(tci[0]);
  }

  lemma VlanMasksDisjoint()
    ensures DisjointMasks(PCP_MASK, DEI_MASK) && DisjointMasks(DEI_MASK, PCP_MASK)
    ensures DisjointMasks(PCP_MASK, VID_MASK) && DisjointMasks(VID_MASK, PCP_MASK)
    ensures DisjointMasks(DEI_MASK, VID_MASK) && DisjointMasks(VID_MASK, DEI_MASK)
  {}
}
