/** Prefix lengths turned into bit-masks: parse_prefix() of the flow command parser, with its byte
    path for plain fields and its mask path for bit-fields.
  */
module PrefixMask {

  import opened BitFill
  import opened BitFields

  /** How significant a bit is in a field of n bytes. */
  function Significance(n: nat, hton: bool, p: Pos): nat
    requires p.byte < n
  {
    8 * (if hton then n - 1 - p.byte else p.byte) + p.bit
  }

  /** Exactly the u most significant bits of the field are set. */
  ghost predicate TopBits(bytes: seq<bv8>, hton: bool, u: nat) {
    forall i, s :: 0 <= i < |bytes| && 0 <= s < 8 ==>
      (Bit(bytes[i], s) <==> Significance(|bytes|, hton, Pos(i, s)) + u >= 8 * |bytes|)
  }

  /** The field read as a number, in its own byte order. */
  ghost function NumberFrom(bytes: seq<bv8>, hton: bool, k: nat): nat
    requires k <= |bytes|
    decreases |bytes| - k
  {
    if k == |bytes| then 0
    else bytes[Visit(|bytes|, hton, k)] as int + 256 * NumberFrom(bytes, hton, k + 1)
  }

  ghost function Number(bytes: seq<bv8>, hton: bool): nat {
    NumberFrom(bytes, hton, 0)
  }

  // ----- the byte path -----

  /** conv[] */
  function Conv(extra: nat): bv8
    requires extra < 8
  {
    if extra == 0 then 0x00 else if extra == 1 then 0x80 else if extra == 2 then 0xc0 else if extra == 3 then 0xe0
    else if extra == 4 then 0xf0 else if extra == 5 then 0xf8 else if extra == 6 then 0xfc else 0xfe
  }

  lemma ConvBits(extra: nat, s: nat)
    requires extra < 8 && s < 8
    ensures Bit(Conv(extra), s) <==> s + extra >= 8
    ensures Bit(0xff, s) && !Bit(0x00, s)
  {}

  /** The number of leading bits the byte path works with: u / 8 is stored in an unsigned int. */
  function Effective(u: nat): nat {
    8 * ((u / 8) % 0x1_0000_0000) + u % 8
  }

  method ByteMask(dst: array<bv8>, offset: nat, size: nat, hton: bool, u: nat) returns (ok: bool)
    requires offset + size <= dst.Length
    modifies dst
    ensures ok <==> Effective(u) <= 8 * size
    ensures ok ==> TopBits(dst[offset..offset + size], hton, Effective(u))
    ensures dst[..offset] == old(dst[..offset]) && dst[offset + size..] == old(dst[offset + size..])
    ensures !ok ==> dst[..] == old(dst[..])
  {
    hide Bit, TopBits;
    var bytes := (u / 8) % 0x1_0000_0000;
    var extra := u % 8;
    var notWhole := if extra != 0 then 1 else 0;
    if bytes > size || bytes + notWhole > size {
      return false;
    }
    if !hton {
      forall i | size - bytes <= i < size { dst[offset + i] := 0xff; }
      forall i | 0 <= i < size - bytes { dst[offset + i] := 0x00; }
      if extra != 0 {
        dst[offset + size - bytes - 1] := Conv(extra);
      }
    } else {
      forall i | 0 <= i < bytes { dst[offset + i] := 0xff; }
      forall i | bytes <= i < size { dst[offset + i] := 0x00; }
      if extra != 0 {
        dst[offset + bytes] := Conv(extra);
      }
    }
    ok := true;
    ShapeIsTopBits(dst[offset..offset + size], hton, bytes, extra);
  }

  /** 0xff bytes, one partial byte, zero bytes, from the most significant end. */
  lemma {:induction false} ShapeIsTopBits(b: seq<bv8>, hton: bool, bytes: nat, extra: nat)
    requires extra < 8 && bytes + (if extra != 0 then 1 else 0) <= |b|
    requires forall i :: 0 <= i < |b| ==>
      var j := if hton then i else |b| - 1 - i;
      b[i] == if j < bytes then 0xff else if j == bytes then Conv(extra) else 0x00
    ensures TopBits(b, hton, 8 * bytes + extra)
  {
    forall i, s | 0 <= i < |b| && 0 <= s < 8
      ensures Bit(b[i], s) <==> Significance(|b|, hton, Pos(i, s)) + (8 * bytes + extra) >= 8 * |b|
    {
      ConvBits(extra, s);
    }
  }

  /** Below 2^35 the byte path rejects exactly the lengths that do not fit. */
  lemma EffectiveIsExact(u: nat)
    ensures Effective(u) == u <==> u < 0x8_0000_0000
  {
    assert u == 8 * (u / 8) + u % 8;
  }

  /** From 2^35 on the byte count wraps: 2^35 passes as the empty prefix of any field. */
  lemma HugeLengthAccepted(size: nat)
    ensures Effective(0x8_0000_0000) == 0 <= 8 * size
  {}

  // ----- the mask path -----

  /** v: u one bits, then `extra` zero bits. */
  method OnesThenZeros(u: nat, extra: nat) returns (v: nat)
    ensures v == TopValue(u + extra, u)
  {
    v := 0;
    var n := u;
    while n > 0
      invariant 0 <= n <= u && v == Pow2(u - n) - 1
    {
      v := 2 * v + 1;
      n := n - 1;
    }
    var e: nat := 0;
    while e < extra
      invariant e <= extra && v == TopValue(u + e, u)
    {
      v := 2 * v;
      e := e + 1;
    }
  }

  method BitMask(dst: array<bv8>, offset: nat, mask: seq<bv8>, hton: bool, u: nat) returns (ok: bool)
    requires offset + |mask| <= dst.Length
    // v is a uintmax_t
    requires |Positions(mask, hton)| <= 64
    modifies dst
    ensures ok <==> u <= |Positions(mask, hton)| && Positions(mask, hton) != []
    ensures ok ==> Deposited(mask, hton, old(dst[offset..offset + |mask|]), dst[offset..offset + |mask|],
                             TopValue(|Positions(mask, hton)|, u))
    ensures dst[..offset] == old(dst[..offset]) && dst[offset + |mask|..] == old(dst[offset + |mask|..])
    ensures !ok ==> dst[..] == old(dst[..])
  {
    hide Positions, Deposited;
    var extra := ArgEntryBfFill(null, offset, mask, hton, 0);
    if u > extra {
      return false;
    }
    var v := OnesThenZeros(u, extra - u);
    ghost var before := dst[..];
    var n := ArgEntryBfFill(dst, offset, mask, hton, v);
    ok := n != 0;
    if !ok {
      EmptyDeposit(mask, hton, before[offset..offset + |mask|], dst[offset..offset + |mask|], v);
      assert before == before[..offset] + before[offset..offset + |mask|] + before[offset + |mask|..];
      assert dst[..] == dst[..offset] + dst[offset..offset + |mask|] + dst[offset + |mask|..];
    }
  }

  /** An empty mask changes nothing. */
  lemma EmptyDeposit(mask: seq<bv8>, hton: bool, before: seq<bv8>, after: seq<bv8>, val: nat)
    requires Deposited(mask, hton, before, after, val) && Positions(mask, hton) == []
    ensures before == after
  {
    DepositedUnique(mask, hton, before, before, after, val);
  }

  /** The number whose top u of len bits are set. */
  ghost function TopValue(len: nat, u: nat): nat
    requires u <= len
  {
    if len == u then Pow2(u) - 1 else 2 * TopValue(len - 1, u)
  }

  lemma {:induction false} TopValueIs(len: nat, u: nat)
    requires u <= len
    ensures TopValue(len, u) == Pow2(len) - Pow2(len - u)
  {
    if u < len {
      TopValueIs(len - 1, u);
    }
  }

  lemma {:induction false} OnesBits(u: nat, k: nat)
    ensures ValueBit(Pow2(u) - 1, k) <==> k < u
  {
    if u == 0 {
      ZeroBits(k);
    } else if k > 0 {
      assert (Pow2(u) - 1) / 2 == Pow2(u - 1) - 1;
      OnesBits(u - 1, k - 1);
    }
  }

  lemma {:induction false} ZeroBits(k: nat)
    ensures Shr(0, k) == 0
  {
    if k > 0 {
      ZeroBits(k - 1);
    }
  }

  /** The deposited value has exactly its top u bits set. */
  lemma {:induction false} TopValueBits(len: nat, u: nat, k: nat)
    requires u <= len && k < len
    ensures ValueBit(TopValue(len, u), k) <==> len - u <= k
    decreases len
  {
    if u == len {
      OnesBits(u, k);
    } else {
      if k > 0 {
        TopValueBits(len - 1, u, k - 1);
      }
    }
  }

  // ----- both paths agree -----

  ghost predicate AllOnes(mask: seq<bv8>) {
    forall i :: 0 <= i < |mask| ==> mask[i] == 0xff
  }

  /** A full mask takes the bits in order of significance. */
  lemma {:induction false} FullPositions(mask: seq<bv8>, hton: bool, k: nat)
    requires AllOnes(mask) && k <= |mask|
    ensures |PositionsFrom(mask, hton, k)| == 8 * (|mask| - k)
    ensures forall m :: 0 <= m < 8 * (|mask| - k) ==>
      PositionsFrom(mask, hton, k)[m] == Pos(Visit(|mask|, hton, k + m / 8), m % 8)
    decreases |mask| - k
  {
    hide Bit, BytePositions, PositionsFrom;
    NoBytesLeft(mask, hton);
    if k < |mask| {
      var i := Visit(|mask|, hton, k);
      NextByte(mask, hton, k);
      VidPositions(i);
      FullPositions(mask, hton, k + 1);
      var ps, rest := PositionsFrom(mask, hton, k), PositionsFrom(mask, hton, k + 1);
      assert ps == Low(i) + High(i) + rest;
      forall m | 0 <= m < 8 * (|mask| - k)
        ensures ps[m] == Pos(Visit(|mask|, hton, k + m / 8), m % 8)
      {
        if m < 8 {
          assert ps[m] == (Low(i) + High(i))[m] == Pos(i, m);
        } else {
          assert ps[m] == rest[m - 8];
          assert (m - 8) / 8 == m / 8 - 1 && (m - 8) % 8 == m % 8;
        }
      }
    }
  }

  /** With a full mask the mask path sets the top u bits of the field. */
  lemma {:induction false} HoldsIsTopBits(mask: seq<bv8>, hton: bool, bytes: seq<bv8>, u: nat)
    requires AllOnes(mask) && |bytes| == |mask| && u <= 8 * |mask|
    ensures Holds(mask, hton, bytes, TopValue(8 * |mask|, u)) <==> TopBits(bytes, hton, u)
  {
    hide Bit, PositionsFrom, TopValue;
    var n := 8 * |mask|;
    var ps := Positions(mask, hton);
    FullPositions(mask, hton, 0);
    forall m | 0 <= m < n
      ensures ps[m].byte < |mask| && ps[m].bit < 8 && Significance(|mask|, hton, ps[m]) == m
      ensures InMask(mask, ps[m])
      ensures ValueBit(TopValue(n, u), m) <==> m + u >= n
    {
      TopValueBits(n, u, m);
      ConvBits(0, m % 8);
    }
    if Holds(mask, hton, bytes, TopValue(n, u)) {
      forall i, s | 0 <= i < |bytes| && 0 <= s < 8
        ensures Bit(bytes[i], s) <==> Significance(|bytes|, hton, Pos(i, s)) + u >= 8 * |bytes|
      {
        var m := Significance(|bytes|, hton, Pos(i, s));
        assert m / 8 == (if hton then |mask| - 1 - i else i) && m % 8 == s;
        assert ps[m] == Pos(i, s);
        assert BitAt(bytes, ps[m]) == ValueBit(TopValue(n, u), m);
      }
    }
    if TopBits(bytes, hton, u) {
      forall m | 0 <= m < n
        ensures InMask(mask, ps[m]) && BitAt(bytes, ps[m]) == ValueBit(TopValue(n, u), m)
      {
        assert Bit(bytes[ps[m].byte], ps[m].bit) <==> Significance(|mask|, hton, Pos(ps[m].byte, ps[m].bit)) + u >= n;
      }
    }
  }

  /** Both paths write the same bytes for a field whose mask is full. */
  lemma {:induction false} PathsCoincide(mask: seq<bv8>, hton: bool, before: seq<bv8>, byByte: seq<bv8>,
      byMask: seq<bv8>, u: nat)
    requires AllOnes(mask) && |byByte| == |mask| && u <= 8 * |mask|
    requires TopBits(byByte, hton, u)
    requires Deposited(mask, hton, before, byMask, TopValue(8 * |mask|, u))
    ensures byByte == byMask
  {
    HoldsIsTopBits(mask, hton, byByte, u);
    assert SameOutside(mask, before, byByte) by {
      forall i, s | 0 <= i < |mask| && 0 <= s < 8
        ensures Bit(mask[i], s)
      {
        ConvBits(0, s);
      }
    }
    DepositedUnique(mask, hton, before, byByte, byMask, TopValue(8 * |mask|, u));
  }

  lemma NoneGathered(bytes: seq<bv8>)
    ensures Gather(bytes, []) == 0
  {}

  lemma {:induction false} GatherNumber(mask: seq<bv8>, hton: bool, bytes: seq<bv8>, k: nat)
    requires AllOnes(mask) && |bytes| == |mask| && k <= |mask|
    ensures Gather(bytes, PositionsFrom(mask, hton, k)) == NumberFrom(bytes, hton, k)
    decreases |mask| - k
  {
    hide Bit, BytePositions, PositionsFrom, Gather, Pow2;
    NoBytesLeft(mask, hton);
    if k == |mask| {
      NoneGathered(bytes);
    } else {
      var i := Visit(|mask|, hton, k);
      NextByte(mask, hton, k);
      VidPositions(i);
      GatherConcat(bytes, Low(i) + High(i), PositionsFrom(mask, hton, k + 1));
      GatherByte(bytes, i);
      GatherNumber(mask, hton, bytes, k + 1);
      SmallPowers();
    }
  }

  /** A prefix mask is the number with the top u bits set, in the byte order of the field. */
  lemma {:induction false} PrefixNumber(bytes: seq<bv8>, hton: bool, u: nat)
    requires TopBits(bytes, hton, u) && u <= 8 * |bytes|
    ensures Number(bytes, hton) == Pow2(8 * |bytes|) - Pow2(8 * |bytes| - u)
  {
    hide Bit, PositionsFrom, Gather, Pow2, TopValue, NumberFrom;
    var n := 8 * |bytes|;
    var mask := seq(|bytes|, _ => 0xff as bv8);
    HoldsIsTopBits(mask, hton, bytes, u);
    FullPositions(mask, hton, 0);
    GatherInvertsDeposit(mask, hton, bytes, TopValue(n, u));
    GatherNumber(mask, hton, bytes, 0);
    TopValueIs(n, u);
    SmallMod(TopValue(n, u), Pow2(n));
  }

  lemma SmallMod(v: nat, d: nat)
    requires v < d
    ensures v % d == v
  {}
}
