/** Values on the command line, and the bytes they are stored as. */
module FlowValues {
  import opened BitFill
  import opened FlowTokens
  import opened Optional
  import opened BitFields
  import opened PrefixMask

  /** What strtoumax() and strtoimax() make of a word, when they accept all of it. */
  datatype Num = Num(unsigned: Option<nat>, signed: Option<int>)

  /** A word of the command line, with what the library routines read in it: the word as a number,
      the rest of the line from it on as a number, and the addresses it spells. */
  datatype Word = Word(text: string, num: Num, rest: Num, mac: Option<seq<bv8>>, ip4: Option<seq<bv8>>,
                       ip6: Option<seq<bv8>>, last: bool, eol: bool)

  predicate NumOk(n: Num) {
    && (n.unsigned.Some? ==> n.unsigned.value < U64)
    && (n.signed.Some? ==> -0x8000_0000_0000_0000 <= n.signed.value < 0x8000_0000_0000_0000)
  }

  predicate WordOk(w: Word) {
    && 0 < |w.text| < 0x1_0000_0000 && NumOk(w.num) && NumOk(w.rest)
    && (w.mac.Some? ==> |w.mac.value| == 6)
    && (w.ip4.Some? ==> |w.ip4.value| == 4)
    && (w.ip6.Some? ==> |w.ip6.value| == 16)
  }

  /** A 64-bit word taken as signed. */
  function Signed(u: nat): int
    requires u < U64
  {
    if u < 0x8000_0000_0000_0000 then u else u - U64
  }

  /** The value an argument takes from a number, if any. */
  function Taken(n: Num, a: Arg): Option<nat> {
    if a.sign then (if n.signed.Some? then Some(n.signed.value % U64) else None) else n.unsigned
  }

  /** The bounds of an argument are 64-bit words, signed ones if it is signed. */
  predicate InBounds(n: Num, a: Arg) {
    a.bounded ==>
      if a.sign then
        n.signed.Some? && Signed(a.min) <= n.signed.value <= Signed(a.max)
      else n.unsigned.Some? && a.min <= n.unsigned.value <= a.max
  }

  /** A signed number is itself again when the word it is kept in is taken as signed. */
  lemma SignedBack(v: int)
    requires -0x8000_0000_0000_0000 <= v < 0x8000_0000_0000_0000
    ensures Signed(v % U64) == v
  {}

  /** The sizes parse_int() can store, or a bit-mask with some bit set. */
  predicate Storable(a: Arg) {
    if a.mask.Some? then Positions(a.mask.value, a.hton) != [] else a.size in {1, 2, 3, 4, 8}
  }

  predicate IntAccepted(n: Num, a: Arg)
    requires NumOk(n)
  {
    (if a.sign then n.signed.Some? else n.unsigned.Some?) && InBounds(n, a) && Storable(a)
  }

  // ----- bytes of a number -----

  function FromBits(b0: bool, b1: bool, b2: bool, b3: bool, b4: bool, b5: bool, b6: bool, b7: bool): bv8 {
    (if b0 then 0x01 else 0) | (if b1 then 0x02 else 0) | (if b2 then 0x04 else 0) | (if b3 then 0x08 else 0) |
    (if b4 then 0x10 else 0) | (if b5 then 0x20 else 0) | (if b6 then 0x40 else 0) | (if b7 then 0x80 else 0)
  }

  /** The low byte of a number. */
  function Byte(x: nat): bv8 {
    FromBits(ValueBit(x, 0), ValueBit(x, 1), ValueBit(x, 2), ValueBit(x, 3),
             ValueBit(x, 4), ValueBit(x, 5), ValueBit(x, 6), ValueBit(x, 7))
  }

  lemma BitsOf(b0: bool, b1: bool, b2: bool, b3: bool, b4: bool, b5: bool, b6: bool, b7: bool)
    ensures var b := FromBits(b0, b1, b2, b3, b4, b5, b6, b7);
            && Bit(b, 0) == b0 && Bit(b, 1) == b1 && Bit(b, 2) == b2 && Bit(b, 3) == b3
            && Bit(b, 4) == b4 && Bit(b, 5) == b5 && Bit(b, 6) == b6 && Bit(b, 7) == b7
  {}

  /** x == 256 * h8 plus its low eight bits, halving eight times. */
  lemma Halvings(x: nat) returns (h: seq<nat>)
    ensures |h| == 9 && h[0] == x
    ensures forall k :: 0 <= k < 8 ==> h[k + 1] == h[k] / 2 && ValueBit(x, k) == (h[k] % 2 == 1)
  {
    h := seq(9, k requires k >= 0 => Shr(x, k));
    forall k | 0 <= k < 8
      ensures h[k + 1] == h[k] / 2
    {
      ShrStep(x, k);
    }
  }

  lemma ByteBits(x: nat)
    ensures BitValue(Byte(x), 0) == Digit(x, 0) && BitValue(Byte(x), 1) == Digit(x, 1)
    ensures BitValue(Byte(x), 2) == Digit(x, 2) && BitValue(Byte(x), 3) == Digit(x, 3)
    ensures BitValue(Byte(x), 4) == Digit(x, 4) && BitValue(Byte(x), 5) == Digit(x, 5)
    ensures BitValue(Byte(x), 6) == Digit(x, 6) && BitValue(Byte(x), 7) == Digit(x, 7)
  {
    hide Bit, FromBits, ValueBit;
    BitsOf(ValueBit(x, 0), ValueBit(x, 1), ValueBit(x, 2), ValueBit(x, 3),
           ValueBit(x, 4), ValueBit(x, 5), ValueBit(x, 6), ValueBit(x, 7));
  }

  lemma ByteBack(x: nat)
    ensures Byte(x) as int == x % 256
  {
    hide *;
    ByteBits(x);
    ByteValue(Byte(x));
    BinaryDigits(x);
  }

  function Digit(x: nat, k: nat): nat {
    if ValueBit(x, k) then 1 else 0
  }

  lemma BinaryDigits(x: nat)
    ensures x % 256 == Digit(x, 0) + 2 * Digit(x, 1) + 4 * Digit(x, 2) + 8 * Digit(x, 3)
                       + 16 * Digit(x, 4) + 32 * Digit(x, 5) + 64 * Digit(x, 6) + 128 * Digit(x, 7)
  {
    hide ValueBit;
    var h := Halvings(x);
    var d := Digit(x, 0) + 2 * Digit(x, 1) + 4 * Digit(x, 2) + 8 * Digit(x, 3);
    assert x == 16 * h[4] + d by {
      assert h[0] == 2 * h[1] + Digit(x, 0) && h[1] == 2 * h[2] + Digit(x, 1);
      assert h[2] == 2 * h[3] + Digit(x, 2) && h[3] == 2 * h[4] + Digit(x, 3);
    }
    var e := Digit(x, 4) + 2 * Digit(x, 5) + 4 * Digit(x, 6) + 8 * Digit(x, 7);
    assert h[4] == 16 * h[8] + e by {
      assert h[4] == 2 * h[5] + Digit(x, 4) && h[5] == 2 * h[6] + Digit(x, 5);
      assert h[6] == 2 * h[7] + Digit(x, 6) && h[7] == 2 * h[8] + Digit(x, 7);
    }
    LowByte(x, h[8], d + 16 * e);
  }

  lemma LowByte(x: nat, q: nat, r: nat)
    requires x == 256 * q + r && r < 256
    ensures x % 256 == r
  {}

  function LittleEndian(u: nat, n: nat): (r: seq<bv8>)
    ensures |r| == n
  {
    if n == 0 then [] else [Byte(u)] + LittleEndian(u / 256, n - 1)
  }

  function BigEndian(u: nat, n: nat): (r: seq<bv8>)
    ensures |r| == n
  {
    if n == 0 then [] else BigEndian(u / 256, n - 1) + [Byte(u)]
  }

  /** Conversion to the size of the field, in its byte order. */
  function IntBytes(u: nat, n: nat, hton: bool): (r: seq<bv8>)
    ensures |r| == n
  {
    if hton then BigEndian(u, n) else LittleEndian(u, n)
  }

  function Power(n: nat): (p: nat)
    ensures p > 0
  {
    if n == 0 then 1 else 256 * Power(n - 1)
  }

  lemma ModStep(u: nat, p: nat)
    requires p > 0
    ensures u % (256 * p) == u % 256 + 256 * ((u / 256) % p)
  {
    var q, r := (u / 256) / p, (u / 256) % p;
    assert u == 256 * (u / 256) + u % 256 && u / 256 == p * q + r;
    assert u == (256 * p) * q + (u % 256 + 256 * r);
    assert u % 256 + 256 * r < 256 * p;
    Remainder(u, 256 * p, q, u % 256 + 256 * r);
  }

  lemma Remainder(u: nat, d: nat, q: nat, r: nat)
    requires d > 0 && u == d * q + r && r < d
    ensures u % d == r
  {
    var q', r' := u / d, u % d;
    assert d * q' + r' == d * q + r;
    if q > q' {
      Bigger(d, q - q');
      assert false;
    } else if q < q' {
      Bigger(d, q' - q);
      assert false;
    }
  }

  lemma Bigger(d: nat, k: int)
    requires k >= 1
    ensures d * k >= d
  {}

  lemma {:induction false} BigEndianAt(u: nat, n: nat, hton: bool, k: nat, tail: seq<bv8>)
    requires k <= n && |tail| == k
    ensures NumberFrom(BigEndian(u, n - k) + tail, true, k) == u % Power(n - k)
    decreases n - k
  {
    var bytes := BigEndian(u, n - k) + tail;
    if k < n {
      var b := [Byte(u)];
      assert bytes == BigEndian(u / 256, n - k - 1) + (b + tail);
      BigEndianAt(u / 256, n, hton, k + 1, b + tail);
      assert bytes[n - 1 - k] == b[0];
      ByteBack(u);
      ModStep(u, Power(n - k - 1));
    }
  }

  lemma {:induction false} LittleEndianAt(u: nat, n: nat, k: nat, head: seq<bv8>)
    requires k <= n && |head| == k
    ensures NumberFrom(head + LittleEndian(u, n - k), false, k) == u % Power(n - k)
    decreases n - k
  {
    var bytes := head + LittleEndian(u, n - k);
    if k < n {
      var b := [Byte(u)];
      assert bytes == (head + b) + LittleEndian(u / 256, n - k - 1);
      LittleEndianAt(u / 256, n, k + 1, head + b);
      assert bytes[k] == b[0];
      ByteBack(u);
      ModStep(u, Power(n - k - 1));
    }
  }

  /** A stored value reads back, in the byte order of the field, as the value modulo its size. */
  lemma IntBytesRead(u: nat, n: nat, hton: bool)
    ensures Number(IntBytes(u, n, hton), hton) == u % Power(n)
  {
    if hton {
      BigEndianAt(u, n, hton, 0, []);
      assert BigEndian(u, n) + [] == BigEndian(u, n);
    } else {
      LittleEndianAt(u, n, 0, []);
      assert [] + LittleEndian(u, n) == LittleEndian(u, n);
    }
  }

  /** -1 stored in a field of up to 8 bytes is a full mask. */
  lemma AllOnesStored(n: nat, hton: bool, i: nat)
    requires i < n <= 8
    ensures IntBytes(U64 - 1, n, hton)[i] == 0xff
  {
    OnesFrom(8, n, i);
    assert Power(8) == U64 by {
      assert Power(4) == 0x1_0000_0000;
      assert Power(8) == 256 * 256 * 256 * 256 * Power(4);
    }
  }

  lemma {:induction false} OnesFrom(m: nat, n: nat, i: nat)
    requires i < n <= m
    ensures LittleEndian(Power(m) - 1, n)[i] == 0xff && BigEndian(Power(m) - 1, n)[i] == 0xff
  {
    hide Byte;
    LowOnes(Power(m - 1));
    if i > 0 {
      OnesFrom(m - 1, n - 1, i - 1);
    }
    if i < n - 1 {
      OnesFrom(m - 1, n - 1, i);
    }
  }

  lemma LowOnes(p: nat)
    requires p > 0
    ensures (256 * p - 1) / 256 == p - 1 && Byte(256 * p - 1) == 0xff
  {
    hide Bit, FromBits, ValueBit;
    BinaryDigits(256 * p - 1);
    AllBits();
  }

  lemma AllBits()
    ensures FromBits(true, true, true, true, true, true, true, true) == 0xff
  {}

  /** What a field holds once a value has been put into it. */
  ghost predicate FieldHolds(a: Arg, before: seq<bv8>, after: seq<bv8>, u: nat) {
    if a.mask.Some? then Deposited(a.mask.value, a.hton, before, after, u)
    else after == IntBytes(u, a.size, a.hton)
  }
}
