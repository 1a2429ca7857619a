/** Spreading a value over the bits of a mask, as the flow command parser does for bit-fields.

    A mask names bit positions; the byte order of the argument says in which order they take the
    bits of the value, least significant first.
  */
module BitFill {

  // ----- bits of a byte -----

  /** 1 << s */
  function OneShl(s: nat): bv8
    requires s < 8
  {
    if s == 0 then 0x01 else if s == 1 then 0x02 else if s == 2 then 0x04 else if s == 3 then 0x08
    else if s == 4 then 0x10 else if s == 5 then 0x20 else if s == 6 then 0x40 else 0x80
  }

  predicate Bit(b: bv8, s: nat)
    requires s < 8
  {
    b & OneShl(s) != 0
  }

  /** buf &= ~(1 << s); buf |= v << s */
  function SetBit(b: bv8, s: nat, v: bool): bv8
    requires s < 8
  {
    (b & !OneShl(s)) | (if v then OneShl(s) else 0)
  }

  lemma SetBitSets(b: bv8, s: nat, v: bool, t: nat)
    requires s < 8 && t < 8
    ensures Bit(SetBit(b, s, v), t) == if t == s then v else Bit(b, t)
  {}

  predicate Above(b: bv8, s: nat)
    requires s < 8
  {
    b >> s != 0
  }

  /** The inner loop stops early: no bit at or above s is left. */
  lemma NoHighBits(b: bv8, s: nat, t: nat)
    requires s <= t < 8 && !Above(b, s)
    ensures !Bit(b, t)
  {}

  lemma SameBits(a: bv8, b: bv8)
    requires forall t :: 0 <= t < 8 ==> Bit(a, t) == Bit(b, t)
    ensures a == b
  {
    assert Bit(a, 0) == Bit(b, 0) && Bit(a, 1) == Bit(b, 1) && Bit(a, 2) == Bit(b, 2) && Bit(a, 3) == Bit(b, 3);
    assert Bit(a, 4) == Bit(b, 4) && Bit(a, 5) == Bit(b, 5) && Bit(a, 6) == Bit(b, 6) && Bit(a, 7) == Bit(b, 7);
  }

  // ----- bits of a value -----

  function Shr(v: nat, k: nat): nat {
    if k == 0 then v else Shr(v / 2, k - 1)
  }

  predicate ValueBit(v: nat, k: nat) {
    Shr(v, k) % 2 == 1
  }

  function Pow2(n: nat): (p: nat)
    ensures p > 0
  {
    if n == 0 then 1 else 2 * Pow2(n - 1)
  }

  lemma {:induction false} ShrStep(v: nat, k: nat)
    ensures Shr(v, k + 1) == Shr(v, k) / 2
  {
    if k > 0 {
      ShrStep(v / 2, k - 1);
    }
  }

  // ----- positions of a mask -----

  datatype Pos = Pos(byte: nat, bit: nat)

  /** Index of the k-th byte visited. */
  function Visit(n: nat, hton: bool, k: nat): nat
    requires k < n
  {
    if hton then n - 1 - k else k
  }

  function BytePositions(i: nat, m: bv8, s: nat): seq<Pos>
    requires s <= 8
    decreases 8 - s
  {
    if s == 8 then []
    else if Bit(m, s) then [Pos(i, s)] + BytePositions(i, m, s + 1)
    else BytePositions(i, m, s + 1)
  }

  function PositionsFrom(mask: seq<bv8>, hton: bool, k: nat): seq<Pos>
    requires k <= |mask|
    decreases |mask| - k
  {
    if k == |mask| then []
    else BytePositions(Visit(|mask|, hton, k), mask[Visit(|mask|, hton, k)], 0) + PositionsFrom(mask, hton, k + 1)
  }

  /** The bits of the mask in the order they take the value. */
  function Positions(mask: seq<bv8>, hton: bool): seq<Pos> {
    PositionsFrom(mask, hton, 0)
  }

  predicate InMask(mask: seq<bv8>, p: Pos) {
    p.byte < |mask| && p.bit < 8 && Bit(mask[p.byte], p.bit)
  }

  lemma {:induction false} BytePositionsAre(i: nat, m: bv8, s: nat, p: Pos)
    requires s <= 8
    ensures p in BytePositions(i, m, s) <==> p.byte == i && s <= p.bit < 8 && Bit(m, p.bit)
    decreases 8 - s
  {
    if s < 8 {
      BytePositionsAre(i, m, s + 1, p);
    }
  }

  lemma {:induction false} PositionsFromAre(mask: seq<bv8>, hton: bool, k: nat, p: Pos)
    requires k <= |mask|
    ensures p in PositionsFrom(mask, hton, k) <==>
      InMask(mask, p) && exists j :: k <= j < |mask| && Visit(|mask|, hton, j) == p.byte
    decreases |mask| - k
  {
    if k < |mask| {
      var i := Visit(|mask|, hton, k);
      BytePositionsAre(i, mask[i], 0, p);
      PositionsFromAre(mask, hton, k + 1, p);
    }
  }

  /** The positions are exactly the bits of the mask. */
  lemma {:induction false} PositionsAre(mask: seq<bv8>, hton: bool, p: Pos)
    ensures p in Positions(mask, hton) <==> InMask(mask, p)
  {
    PositionsFromAre(mask, hton, 0, p);
    if InMask(mask, p) {
      var j := if hton then |mask| - 1 - p.byte else p.byte;
      assert Visit(|mask|, hton, j) == p.byte;
    }
  }

  ghost predicate Unique<T>(s: seq<T>) {
    forall i, j :: 0 <= i < j < |s| ==> s[i] != s[j]
  }

  lemma {:induction false} BytePositionsUnique(i: nat, m: bv8, s: nat)
    requires s <= 8
    ensures Unique(BytePositions(i, m, s))
    decreases 8 - s
  {
    if s < 8 {
      BytePositionsUnique(i, m, s + 1);
      BytePositionsAre(i, m, s + 1, Pos(i, s));
    }
  }

  lemma {:induction false} PositionsFromUnique(mask: seq<bv8>, hton: bool, k: nat)
    requires k <= |mask|
    ensures Unique(PositionsFrom(mask, hton, k))
    decreases |mask| - k
  {
    if k < |mask| {
      var i := Visit(|mask|, hton, k);
      var a, b := BytePositions(i, mask[i], 0), PositionsFrom(mask, hton, k + 1);
      BytePositionsUnique(i, mask[i], 0);
      PositionsFromUnique(mask, hton, k + 1);
      forall x, y | x in a && y in b
        ensures x != y
      {
        BytePositionsAre(i, mask[i], 0, x);
        PositionsFromAre(mask, hton, k + 1, y);
      }
      UniqueConcat(a, b);
    }
  }

  lemma UniqueConcat<T>(a: seq<T>, b: seq<T>)
    requires Unique(a) && Unique(b)
    requires forall x, y :: x in a && y in b ==> x != y
    ensures Unique(a + b)
  {
    forall i, j | 0 <= i < j < |a + b|
      ensures (a + b)[i] != (a + b)[j]
    {
      if i < |a| <= j {
        assert a[i] in a && b[j - |a|] in b;
      }
    }
  }

  // ----- the deposit -----

  ghost predicate BitAt(bytes: seq<bv8>, p: Pos)
    requires p.byte < |bytes| && p.bit < 8
  {
    Bit(bytes[p.byte], p.bit)
  }

  /** The first n positions of the mask hold the first n bits of the value. */
  ghost predicate HoldsFirst(mask: seq<bv8>, hton: bool, bytes: seq<bv8>, val: nat, n: nat) {
    && |bytes| == |mask|
    && n <= |Positions(mask, hton)|
    && forall k :: 0 <= k < n ==>
         var p := Positions(mask, hton)[k];
         InMask(mask, p) && BitAt(bytes, p) == ValueBit(val, k)
  }

  ghost predicate Holds(mask: seq<bv8>, hton: bool, bytes: seq<bv8>, val: nat) {
    HoldsFirst(mask, hton, bytes, val, |Positions(mask, hton)|)
  }

  ghost predicate SameOutside(mask: seq<bv8>, before: seq<bv8>, after: seq<bv8>) {
    && |before| == |after| == |mask|
    && forall i, s :: 0 <= i < |mask| && 0 <= s < 8 && !Bit(mask[i], s) ==> Bit(after[i], s) == Bit(before[i], s)
  }

  /** `after` is `before` with the bits of the mask replaced by the low bits of the value. */
  ghost predicate Deposited(mask: seq<bv8>, hton: bool, before: seq<bv8>, after: seq<bv8>, val: nat) {
    Holds(mask, hton, after, val) && SameOutside(mask, before, after)
  }

  /** The relation determines the bytes. */
  lemma {:induction false} DepositedUnique(mask: seq<bv8>, hton: bool, before: seq<bv8>, a: seq<bv8>, b: seq<bv8>,
      val: nat)
    requires Deposited(mask, hton, before, a, val) && Deposited(mask, hton, before, b, val)
    ensures a == b
  {
    var ps := Positions(mask, hton);
    forall i | 0 <= i < |mask|
      ensures a[i] == b[i]
    {
      forall s | 0 <= s < 8
        ensures Bit(a[i], s) == Bit(b[i], s)
      {
        if Bit(mask[i], s) {
          PositionsAre(mask, hton, Pos(i, s));
          var k :| 0 <= k < |ps| && ps[k] == Pos(i, s);
          assert BitAt(a, ps[k]) == ValueBit(val, k) == BitAt(b, ps[k]);
        }
      }
      SameBits(a[i], b[i]);
    }
  }

  /** One bit of the deposit. */
  lemma {:induction false} DepositStep(mask: seq<bv8>, hton: bool, before: seq<bv8>, bytes: seq<bv8>, val: nat, n: nat)
    requires n < |Positions(mask, hton)| && Unique(Positions(mask, hton))
    requires HoldsFirst(mask, hton, bytes, val, n) && SameOutside(mask, before, bytes)
    requires InMask(mask, Positions(mask, hton)[n])
    ensures var p := Positions(mask, hton)[n];
            var bytes' := bytes[p.byte := SetBit(bytes[p.byte], p.bit, ValueBit(val, n))];
            HoldsFirst(mask, hton, bytes', val, n + 1) && SameOutside(mask, before, bytes')
  {
    var ps := Positions(mask, hton);
    var p := ps[n];
    var v := ValueBit(val, n);
    var bytes' := bytes[p.byte := SetBit(bytes[p.byte], p.bit, v)];
    SetBitSets(bytes[p.byte], p.bit, v, p.bit);
    forall k | 0 <= k < n + 1
      ensures InMask(mask, ps[k]) && BitAt(bytes', ps[k]) == ValueBit(val, k)
    {
      if k < n {
        assert InMask(mask, ps[k]) && BitAt(bytes, ps[k]) == ValueBit(val, k);
        if ps[k].byte == p.byte {
          SetBitSets(bytes[p.byte], p.bit, v, ps[k].bit);
        }
      }
    }
    forall i, s | 0 <= i < |mask| && 0 <= s < 8 && !Bit(mask[i], s)
      ensures Bit(bytes'[i], s) == Bit(before[i], s)
    {
      if i == p.byte {
        SetBitSets(bytes[i], p.bit, v, s);
      }
    }
  }

  /** arg_entry_bf_fill(): spreads val over the mask in dst at offset, or only counts the bits of
      the mask when there is no destination. */
  method ArgEntryBfFill(dst: array?<bv8>, offset: nat, mask: seq<bv8>, hton: bool, value: nat) returns (len: nat)
    requires dst != null ==> offset + |mask| <= dst.Length
    modifies dst
    ensures len == |Positions(mask, hton)|
    ensures dst != null ==>
      Deposited(mask, hton, old(dst[offset..offset + |mask|]), dst[offset..offset + |mask|], value)
    ensures dst != null ==> dst[..offset] == old(dst[..offset]) && dst[offset + |mask|..] == old(dst[offset + |mask|..])
  {
    hide Bit, Above, Progress, BytePositions, PositionsFrom, Unique;
    var i, end, sub, add := |mask|, 0, 1, 0;
    var val := value;
    len := 0;
    if !hton {
      i, end, sub, add := 0, |mask|, 0, 1;
    }
    ghost var ps, before := Positions(mask, hton), if dst != null then dst[..] else [];
    ProgressStart(dst, offset, mask, hton, value);
    PositionsFromUnique(mask, hton, 0);
    ghost var k := 0;
    while i != end
      invariant 0 <= k <= |mask| && i == (if hton then |mask| - k else k)
      invariant len <= |ps| && ps[len..] == PositionsFrom(mask, hton, k)
      invariant Progress(dst, offset, mask, hton, value, val, len, before)
      decreases |mask| - k
    {
      i := i - sub;
      NextByte(mask, hton, k);
      val, len := SpreadByte(dst, offset, mask, hton, value, val, len, i, before, PositionsFrom(mask, hton, k + 1));
      k := k + 1;
      i := i + add;
    }
    NoBytesLeft(mask, hton);
    ProgressEnd(dst, offset, mask, hton, value, val, len, before);
  }

  /** The inner loop: one byte of the mask. */
  method SpreadByte(dst: array?<bv8>, offset: nat, mask: seq<bv8>, hton: bool, ghost value: nat, val: nat, len: nat,
                    i: nat, ghost before: seq<bv8>, ghost rest: seq<Pos>) returns (val': nat, len': nat)
    requires i < |mask| && Unique(Positions(mask, hton)) && len <= |Positions(mask, hton)|
    requires Positions(mask, hton)[len..] == BytePositions(i, mask[i], 0) + rest
    requires Progress(dst, offset, mask, hton, value, val, len, before)
    modifies dst
    ensures len' <= |Positions(mask, hton)| && Positions(mask, hton)[len'..] == rest
    ensures Progress(dst, offset, mask, hton, value, val', len', before)
  {
    hide Bit, Above, Progress, BytePositions, Positions, Unique;
    val', len' := val, len;
    ghost var ps := Positions(mask, hton);
    var shift := 0;
    while shift < 8 && Above(mask[i], shift)
      invariant 0 <= shift <= 8
      invariant len' <= |ps| && ps[len'..] == BytePositions(i, mask[i], shift) + rest
      invariant Progress(dst, offset, mask, hton, value, val', len', before)
      decreases 8 - shift
    {
      NextBit(i, mask[i], shift);
      if Bit(mask[i], shift) {
        TakeFirst(ps, len', Pos(i, shift), BytePositions(i, mask[i], shift + 1), rest);
        val' := PutBit(dst, offset, mask, hton, value, val', len', i, shift, before);
        len' := len' + 1;
      }
      shift := shift + 1;
    }
    NothingLeft(i, mask[i], shift);
    assert [] + rest == rest;
  }

  lemma NextByte(mask: seq<bv8>, hton: bool, k: nat)
    requires k < |mask|
    ensures var i := Visit(|mask|, hton, k);
            PositionsFrom(mask, hton, k) == BytePositions(i, mask[i], 0) + PositionsFrom(mask, hton, k + 1)
  {}

  lemma NextBit(i: nat, m: bv8, s: nat)
    requires s < 8
    ensures BytePositions(i, m, s) ==
      (if Bit(m, s) then [Pos(i, s)] + BytePositions(i, m, s + 1) else BytePositions(i, m, s + 1))
  {}

  lemma NoBytesLeft(mask: seq<bv8>, hton: bool)
    ensures PositionsFrom(mask, hton, |mask|) == []
  {}

  lemma TakeFirst<T>(s: seq<T>, n: nat, x: T, a: seq<T>, b: seq<T>)
    requires n <= |s| && s[n..] == [x] + a + b
    ensures n < |s| && s[n] == x && s[n + 1..] == a + b
  {
    assert s[n] == s[n..][0];
    assert s[n + 1..] == s[n..][1..];
  }

  /** *buf &= ~(1 << shift); *buf |= (val & 1) << shift; val >>= 1 */
  method PutBit(dst: array?<bv8>, offset: nat, mask: seq<bv8>, hton: bool, ghost value: nat, val: nat, ghost n: nat,
                i: nat, shift: nat, ghost before: seq<bv8>) returns (val': nat)
    requires n < |Positions(mask, hton)| && Unique(Positions(mask, hton))
    requires i < |mask| && shift < 8 && Bit(mask[i], shift) && Positions(mask, hton)[n] == Pos(i, shift)
    requires Progress(dst, offset, mask, hton, value, val, n, before)
    modifies dst
    ensures Progress(dst, offset, mask, hton, value, val', n + 1, before)
  {
    hide Bit, SetBit, Holds, SameOutside, HoldsFirst;
    val' := val;
    if dst != null {
      ghost var bytes, low, high := dst[offset..offset + |mask|], dst[..offset], dst[offset + |mask|..];
      DepositStep(mask, hton, before[offset..offset + |mask|], bytes, value, n);
      dst[offset + i] := SetBit(dst[offset + i], shift, val % 2 == 1);
      assert dst[offset..offset + |mask|] == bytes[i := SetBit(bytes[i], shift, ValueBit(value, n))];
      assert dst[..offset] == low && dst[offset + |mask|..] == high;
      ShrStep(value, n);
      val' := val / 2;
    }
  }

  lemma ProgressStart(dst: array?<bv8>, offset: nat, mask: seq<bv8>, hton: bool, value: nat)
    requires dst != null ==> offset + |mask| <= dst.Length
    ensures Progress(dst, offset, mask, hton, value, value, 0, if dst != null then dst[..] else [])
  {
    if dst != null {
      assert dst[offset..offset + |mask|] == dst[..][offset..offset + |mask|];
      assert dst[offset + |mask|..] == dst[..][offset + |mask|..];
    }
  }

  lemma ProgressEnd(dst: array?<bv8>, offset: nat, mask: seq<bv8>, hton: bool, value: nat, val: nat, len: nat,
                    before: seq<bv8>)
    requires Progress(dst, offset, mask, hton, value, val, len, before)
    requires Positions(mask, hton)[len..] == []
    ensures len == |Positions(mask, hton)|
    ensures dst != null ==>
      && Deposited(mask, hton, before[offset..offset + |mask|], dst[offset..offset + |mask|], value)
      && dst[..offset] == before[..offset] && dst[offset + |mask|..] == before[offset + |mask|..]
  {}

  lemma {:induction false} NothingLeft(i: nat, m: bv8, s: nat)
    requires s <= 8 && (s == 8 || !Above(m, s))
    ensures BytePositions(i, m, s) == []
    decreases 8 - s
  {
    if s < 8 {
      NoHighBits(m, s, s);
      forall t | s + 1 <= t < 8
        ensures !Bit(m, t)
      {
        NoHighBits(m, s, t);
      }
      if BytePositions(i, m, s) != [] {
        BytePositionsAre(i, m, s, BytePositions(i, m, s)[0]);
        assert false;
      }
    }
  }

  ghost predicate Progress(dst: array?<bv8>, offset: nat, mask: seq<bv8>, hton: bool, value: nat, val: nat, len: nat,
                           before: seq<bv8>)
    reads dst
  {
    && len <= |Positions(mask, hton)|
    && (dst != null ==>
          && offset + |mask| <= dst.Length == |before|
          && val == Shr(value, len)
          && HoldsFirst(mask, hton, dst[offset..offset + |mask|], value, len)
          && SameOutside(mask, before[offset..offset + |mask|], dst[offset..offset + |mask|])
          && dst[..offset] == before[..offset] && dst[offset + |mask|..] == before[offset + |mask|..])
  }
}
