/** One's complement sums as RFC 1071 defines them, on a little-endian host. */
module OnesComplement {

  type byte = x: int | 0 <= x < 0x100
  type word = x: int | 0 <= x < 0x1_0000

  /** Two bytes of memory read as a host word. */
  function Word(lo: byte, hi: byte): word {
    lo as int + 0x100 * hi as int
  }

  /** The sum of the 16-bit words of a buffer, an odd last byte padded with zero. */
  function SumBytes(b: seq<byte>): nat {
    if |b| == 0 then 0
    else if |b| == 1 then b[0]
    else Word(b[0], b[1]) + SumBytes(b[2..])
  }

  /** The same sum with the words read in network order. */
  function SumNetwork(b: seq<byte>): nat {
    if |b| == 0 then 0
    else if |b| == 1 then Word(0, b[0])
    else Word(b[1], b[0]) + SumNetwork(b[2..])
  }

  /** The 16-bit one's complement value of a sum: 0 only for an empty sum. */
  function Fold(s: nat): (f: word)
    ensures f == 0 <==> s == 0
  {
    if s == 0 then 0 else 1 + (s - 1) % 0xFFFF
  }

  function Complement(w: word): word {
    0xFFFF - w
  }

  /** (sum & 0xffff) + (sum >> 16) */
  function FoldOnce(s: nat): nat {
    s % 0x1_0000 + s / 0x1_0000
  }

  /** A received buffer whose words include the checksum is accepted. */
  ghost predicate Verifies(sum: nat) {
    Fold(sum) == 0xFFFF
  }

  lemma VerifiesIff(sum: nat)
    ensures Verifies(sum) <==> sum > 0 && sum % 0xFFFF == 0
  {
    FoldMod(sum);
  }

  lemma FoldMod(s: nat)
    ensures Fold(s) % 0xFFFF == s % 0xFFFF
  {
    if s > 0 {
      var q, r := (s - 1) / 0xFFFF, (s - 1) % 0xFFFF;
      assert s == 0xFFFF * q + (r + 1);
    }
  }

  /** Fold is determined by the residue and by being zero or not. */
  lemma FoldEq(a: nat, b: nat)
    requires a % 0xFFFF == b % 0xFFFF && (a == 0 <==> b == 0)
    ensures Fold(a) == Fold(b)
  {
    FoldMod(a);
    FoldMod(b);
  }

  lemma FoldOnceKeeps(s: nat)
    ensures Fold(FoldOnce(s)) == Fold(s)
    ensures FoldOnce(s) <= s
    ensures s >= 0x1_0000 ==> FoldOnce(s) < s
  {
    var q, r := s / 0x1_0000, s % 0x1_0000;
    assert s == 0x1_0000 * q + r;
    assert s == FoldOnce(s) + 0xFFFF * q;
    assert s % 0xFFFF == FoldOnce(s) % 0xFFFF;
    FoldEq(s, FoldOnce(s));
  }

  lemma FoldSmall(s: nat)
    requires s <= 0xFFFF
    ensures Fold(s) == s
  {}

  /** Two folds reduce any 32-bit sum. */
  lemma TwoFoldsSuffice(s: nat)
    requires s < 0x1_0000_0000
    ensures FoldOnce(FoldOnce(s)) == Fold(s)
  {
    FoldOnceKeeps(s);
    FoldOnceKeeps(FoldOnce(s));
    assert FoldOnce(s) <= 0x1_FFFE;
    FoldSmall(FoldOnce(FoldOnce(s)));
  }

  /** A buffer is accepted when its checksum word complements the fold of the others. */
  lemma ComplementVerifies(rest: nat)
    requires rest > 0
    ensures Verifies(rest + Complement(Fold(rest)))
  {
    FoldMod(rest);
    VerifiesIff(rest + Complement(Fold(rest)));
    var q := (rest - 1) / 0xFFFF;
    assert rest + Complement(Fold(rest)) == 0xFFFF * (q + 1);
  }

  // ----- structure of sums -----

  lemma {:induction false} SumConcat(a: seq<byte>, b: seq<byte>)
    requires |a| % 2 == 0
    ensures SumBytes(a + b) == SumBytes(a) + SumBytes(b)
  {
    if |a| == 0 {
      assert a + b == b;
    } else {
      assert (a + b)[2..] == a[2..] + b;
      SumConcat(a[2..], b);
    }
  }

  /** Replacing the two bytes at an even offset changes the sum by the difference. */
  lemma {:induction false} SumPatch(b: seq<byte>, i: nat, lo: byte, hi: byte)
    requires i % 2 == 0 && i + 2 <= |b|
    ensures SumBytes(b[i := lo][i + 1 := hi]) + Word(b[i], b[i + 1]) == SumBytes(b) + Word(lo, hi)
  {
    var c := b[i := lo][i + 1 := hi];
    if i > 0 {
      assert c[2..] == b[2..][i - 2 := lo][i - 1 := hi];
      SumPatch(b[2..], i - 2, lo, hi);
    } else {
      assert c[2..] == b[2..];
    }
  }

  lemma {:induction false} SumBound(b: seq<byte>)
    ensures SumBytes(b) <= 0xFFFF * ((|b| + 1) / 2)
    decreases |b|
  {
    if |b| >= 2 {
      SumBound(b[2..]);
      assert (|b| + 1) / 2 == (|b[2..]| + 1) / 2 + 1;
    }
  }

  function Swap(w: word): word {
    w % 0x100 * 0x100 + w / 0x100
  }

  lemma {:induction false} NetworkIsSwapped(b: seq<byte>)
    ensures SumNetwork(b) % 0xFFFF == 0x100 * SumBytes(b) % 0xFFFF
    ensures SumNetwork(b) == 0 <==> SumBytes(b) == 0
    decreases |b|
  {
    if |b| >= 2 {
      var s, n := SumBytes(b[2..]), SumNetwork(b[2..]);
      NetworkIsSwapped(b[2..]);
      var hi: nat := b[1];
      assert 0x100 * SumBytes(b) == 0x100 * s + Word(b[1], b[0]) + 0xFFFF * hi;
      CongruentAdd(n, 0x100 * s, Word(b[1], b[0]));
      MultipleVanishes(0x100 * s + Word(b[1], b[0]), hi);
    }
  }

  lemma CongruentAdd(a: nat, b: nat, c: nat)
    requires a % 0xFFFF == b % 0xFFFF
    ensures (a + c) % 0xFFFF == (b + c) % 0xFFFF
  {
    assert a == 0xFFFF * (a / 0xFFFF) + a % 0xFFFF;
    assert b == 0xFFFF * (b / 0xFFFF) + b % 0xFFFF;
    MultipleVanishes(a % 0xFFFF + c, a / 0xFFFF);
    MultipleVanishes(b % 0xFFFF + c, b / 0xFFFF);
  }

  lemma MultipleVanishes(a: nat, k: nat)
    ensures (a + 0xFFFF * k) % 0xFFFF == a % 0xFFFF
  {}

  /** Section 2 of RFC 1071: summing in host order and storing in host order gives the bytes of
      the network order sum. */
  lemma ByteOrderIndependence(b: seq<byte>)
    ensures Fold(SumNetwork(b)) == Swap(Fold(SumBytes(b)))
  {
    hide SumBytes, SumNetwork, Fold;
    NetworkIsSwapped(b);
    var f := Fold(SumBytes(b));
    FoldMod(SumBytes(b));
    SwapCongruence(f);
    ScaledCongruence(SumBytes(b), f);
    FoldEq(SumNetwork(b), Swap(f));
    FoldSmall(Swap(f));
  }

  lemma SwapCongruence(f: word)
    ensures 0x100 * f as int % 0xFFFF == Swap(f) % 0xFFFF
    ensures Swap(f) == 0 <==> f == 0
  {
    var n: nat := f;
    assert 0x100 * n == Swap(f) + 0xFFFF * (n / 0x100);
    MultipleVanishes(Swap(f), n / 0x100);
  }

  lemma ScaledCongruence(a: nat, b: nat)
    requires a % 0xFFFF == b % 0xFFFF
    ensures 0x100 * a % 0xFFFF == 0x100 * b % 0xFFFF
  {
    assert a == 0xFFFF * (a / 0xFFFF) + a % 0xFFFF;
    assert b == 0xFFFF * (b / 0xFFFF) + b % 0xFFFF;
    MultipleVanishes(0x100 * (a % 0xFFFF), 0x100 * (a / 0xFFFF));
    MultipleVanishes(0x100 * (b % 0xFFFF), 0x100 * (b / 0xFFFF));
  }

  /** Acceptance does not depend on the byte order either. */
  lemma VerifiesInNetworkOrder(b: seq<byte>)
    ensures Verifies(SumNetwork(b)) <==> Verifies(SumBytes(b))
  {
    ByteOrderIndependence(b);
  }
}
