/** The mempool and the crypto device that the benchmark runners exchange operations with.

    An operation is known by its address only. The pool holds a set of free operations, the
    device a set of operations in flight. Both are adversaries: the pool may refuse a bulk
    request, the device may accept any prefix of a burst and may hand back any operations it
    holds, in any order.
  */
module CryptoDevice {

  type Op = nat

  function Elems(s: seq<Op>): set<Op> {
    set x | x in s
  }

  ghost predicate Distinct(s: seq<Op>) {
    forall i, j :: 0 <= i < j < |s| ==> s[i] != s[j]
  }

  /** A burst of n distinct operations is a set of exactly n operations. */
  lemma {:induction false} DistinctCount(s: seq<Op>)
    requires Distinct(s)
    ensures |Elems(s)| == |s|
  {
    if s == [] {
      assert Elems(s) == {};
    } else {
      var n := |s| - 1;
      DistinctCount(s[..n]);
      assert s == s[..n] + [s[n]];
      assert Elems(s) == Elems(s[..n]) + {s[n]};
    }
  }

  lemma {:induction false} DistinctConcat(a: seq<Op>, b: seq<Op>)
    requires Distinct(a) && Distinct(b) && Elems(a) !! Elems(b)
    ensures Distinct(a + b)
    ensures Elems(a + b) == Elems(a) + Elems(b)
  {
    forall i, j | 0 <= i < j < |a + b|
      ensures (a + b)[i] != (a + b)[j]
    {
      if i < |a| <= j {
        assert a[i] in Elems(a) && b[j - |a|] in Elems(b);
      }
    }
  }

  /** Splitting a burst splits its set. */
  lemma {:induction false} DistinctSplit(s: seq<Op>, k: nat)
    requires k <= |s| && Distinct(s)
    ensures Distinct(s[..k]) && Distinct(s[k..])
    ensures Elems(s[..k]) !! Elems(s[k..])
    ensures Elems(s) == Elems(s[..k]) + Elems(s[k..])
  {
    assert s == s[..k] + s[k..];
  }

  /** Some arrangement of at most n elements of a set; of exactly n when exact is asked for. */
  method Pick(from: set<Op>, n: nat, exact: bool) returns (t: seq<Op>)
    requires exact ==> n <= |from|
    ensures |t| <= n && (exact ==> |t| == n)
    ensures Distinct(t) && Elems(t) <= from
  {
    t := [];
    var left := from;
    while |t| < n && left != {}
      invariant |t| <= n
      invariant Distinct(t)
      invariant forall x :: x in from <==> x in left || x in t
      invariant forall x :: x in t ==> x !in left
      invariant |left| + |t| == |from|
    {
      var stop: bool := *;
      if stop && !exact {
        break;
      }
      var op :| op in left;
      t := t + [op];
      left := left - {op};
    }
  }

  /** What was asked of the device and what it answered, and when the clock was read in between. */
  datatype Call = Offered(size: nat, accepted: nat) | Polled(size: nat, returned: nat) | Clock(time: nat)

  /** Operations accepted and returned over a run, and the number of polls. */
  function AcceptedIn(calls: seq<Call>): nat {
    if calls == [] then 0
    else
      var c := calls[|calls| - 1];
      AcceptedIn(calls[..|calls| - 1]) + if c.Offered? then c.accepted else 0
  }

  function ReturnedIn(calls: seq<Call>): nat {
    if calls == [] then 0
    else
      var c := calls[|calls| - 1];
      ReturnedIn(calls[..|calls| - 1]) + if c.Polled? then c.returned else 0
  }

  function PollsIn(calls: seq<Call>): nat {
    if calls == [] then 0
    else PollsIn(calls[..|calls| - 1]) + if calls[|calls| - 1].Polled? then 1 else 0
  }

  lemma OneMoreCall(calls: seq<Call>, c: Call)
    ensures AcceptedIn(calls + [c]) == AcceptedIn(calls) + if c.Offered? then c.accepted else 0
    ensures ReturnedIn(calls + [c]) == ReturnedIn(calls) + if c.Polled? then c.returned else 0
    ensures PollsIn(calls + [c]) == PollsIn(calls) + if c.Polled? then 1 else 0
  {
    assert (calls + [c])[..|calls|] == calls;
  }

  lemma {:induction false} PollsConcat(a: seq<Call>, b: seq<Call>)
    ensures PollsIn(a + b) == PollsIn(a) + PollsIn(b)
  {
    if b == [] {
      assert a + b == a;
    } else {
      var n := |b| - 1;
      PollsConcat(a, b[..n]);
      assert (a + b)[..|a + b| - 1] == a + b[..n];
    }
  }

  /** Polls since a point of the log, and since a later one. */
  lemma PollsSince(first: seq<Call>, middle: seq<Call>, now: seq<Call>)
    requires first <= middle <= now
    ensures PollsIn(now[|first|..]) == PollsIn(middle[|first|..]) + PollsIn(now[|middle|..])
  {
    PollsConcat(middle[|first|..], now[|middle|..]);
    assert now[|first|..] == middle[|first|..] + now[|middle|..];
  }

  /** Every burst offered is testBurst operations, or what is missing to `total` if that is less;
      every poll asks for testBurst. */
  ghost predicate InBursts(calls: seq<Call>, total: nat, testBurst: nat) {
    forall j :: 0 <= j < |calls| ==>
      match calls[j]
      case Offered(n, _) =>
        && AcceptedIn(calls[..j]) <= total
        && n == (if testBurst <= total - AcceptedIn(calls[..j]) then testBurst else total - AcceptedIn(calls[..j]))
      case Polled(n, _) => n == testBurst
      case Clock(_) => true
  }

  lemma InBurstsMore(calls: seq<Call>, c: Call, total: nat, testBurst: nat)
    requires InBursts(calls, total, testBurst)
    requires match c
             case Offered(n, _) =>
               && AcceptedIn(calls) <= total
               && n == (if testBurst <= total - AcceptedIn(calls) then testBurst else total - AcceptedIn(calls))
             case Polled(n, _) => n == testBurst
             case Clock(_) => true
    ensures InBursts(calls + [c], total, testBurst)
  {
    hide AcceptedIn;
    var more := calls + [c];
    assert more[..|calls|] == calls;
    forall j | 0 <= j < |calls|
      ensures more[j] == calls[j] && more[..j] == calls[..j]
    {}
  }

  /** Since `before` the device was asked in bursts of this size, accepted and returned that many
      operations, and was polled that often. */
  ghost predicate Logged(before: seq<Call>, now: seq<Call>, total: nat, testBurst: nat, accepted: nat, returned: nat,
                         polls: nat)
  {
    && before <= now
    && var calls := now[|before|..];
    && InBursts(calls, total, testBurst)
    && AcceptedIn(calls) == accepted && ReturnedIn(calls) == returned && PollsIn(calls) == polls
  }

  lemma NothingLogged(log: seq<Call>, total: nat, testBurst: nat)
    ensures Logged(log, log, total, testBurst, 0, 0, 0)
  {}

  lemma OfferLogged(before: seq<Call>, now: seq<Call>, total: nat, testBurst: nat, accepted: nat, returned: nat,
                    polls: nat, n: nat, k: nat)
    requires Logged(before, now, total, testBurst, accepted, returned, polls) && accepted <= total
    requires n == if testBurst <= total - accepted then testBurst else total - accepted
    ensures Logged(before, now + [Offered(n, k)], total, testBurst, accepted + k, returned, polls)
  {
    hide InBursts, AcceptedIn, ReturnedIn, PollsIn;
    var calls, c := now[|before|..], Offered(n, k);
    assert (now + [c])[|before|..] == calls + [c];
    OneMoreCall(calls, c);
    InBurstsMore(calls, c, total, testBurst);
  }

  lemma PollLogged(before: seq<Call>, now: seq<Call>, total: nat, testBurst: nat, accepted: nat, returned: nat,
                   polls: nat, k: nat)
    requires Logged(before, now, total, testBurst, accepted, returned, polls)
    ensures Logged(before, now + [Polled(testBurst, k)], total, testBurst, accepted, returned + k, polls + 1)
  {
    hide InBursts, AcceptedIn, ReturnedIn, PollsIn;
    var calls, c := now[|before|..], Polled(testBurst, k);
    assert (now + [c])[|before|..] == calls + [c];
    OneMoreCall(calls, c);
    InBurstsMore(calls, c, total, testBurst);
  }

  lemma ClockLogged(before: seq<Call>, now: seq<Call>, total: nat, testBurst: nat, accepted: nat, returned: nat,
                    polls: nat, t: nat)
    requires Logged(before, now, total, testBurst, accepted, returned, polls)
    ensures Logged(before, now + [Clock(t)], total, testBurst, accepted, returned, polls)
  {
    hide InBursts, AcceptedIn, ReturnedIn, PollsIn;
    var calls, c := now[|before|..], Clock(t);
    assert (now + [c])[|before|..] == calls + [c];
    OneMoreCall(calls, c);
    InBurstsMore(calls, c, total, testBurst);
  }

  /** rte_mempool: get_bulk hands out n distinct free operations or nothing. */
  class Mempool {
    var free: set<Op>
    // how many requests were refused
    ghost var refused: nat

    method GetBulk(dst: array<Op>, off: nat, n: nat) returns (ok: bool)
      requires off + n <= dst.Length
      modifies this, dst
      ensures !ok ==> free == old(free) && dst[..] == old(dst[..])
      ensures ok ==> Distinct(dst[off..off + n]) && Elems(dst[off..off + n]) <= old(free)
      ensures ok ==> free == old(free) - Elems(dst[off..off + n])
      ensures refused == old(refused) + if ok then 0 else 1
      ensures dst[..off] == old(dst[..off]) && dst[off + n..] == old(dst[off + n..])
    {
      ok := *;
      if |free| < n {
        ok := false;
      }
      if ok {
        var t := Pick(free, n, true);
        forall i | 0 <= i < n {
          dst[off + i] := t[i];
        }
        assert dst[off..off + n] == t;
        free := free - Elems(t);
      } else {
        refused := refused + 1;
      }
    }

    method PutBulk(src: array<Op>, off: nat, n: nat)
      requires off + n <= src.Length
      // nothing is freed twice
      requires Distinct(src[off..off + n]) && Elems(src[off..off + n]) !! free
      modifies this
      ensures free == old(free) + Elems(src[off..off + n]) && refused == old(refused)
    {
      free := free + Elems(src[off..off + n]);
    }
  }

  /** rte_cryptodev: one queue pair. */
  class Cryptodev {
    var inflight: set<Op>
    ghost var log: seq<Call>

    /** Accepts any prefix of the burst. Only distinct operations that are not already in
        flight and whose fields have been filled may be offered. */
    method EnqueueBurst(ops: array<Op>, off: nat, n: nat, ghost populated: set<Op>) returns (k: nat)
      requires off + n <= ops.Length
      requires Distinct(ops[off..off + n])
      requires Elems(ops[off..off + n]) !! inflight
      requires Elems(ops[off..off + n]) <= populated
      modifies this
      ensures k <= n
      ensures inflight == old(inflight) + Elems(ops[off..off + k])
      ensures log == old(log) + [Offered(n, k)]
    {
      k :| 0 <= k <= n;
      inflight := inflight + Elems(ops[off..off + k]);
      log := log + [Offered(n, k)];
    }

    /** Hands back at most n operations in flight, chosen and ordered freely. */
    method DequeueBurst(dst: array<Op>, off: nat, n: nat) returns (k: nat)
      requires off + n <= dst.Length
      modifies this, dst
      ensures k <= n
      ensures Distinct(dst[off..off + k]) && Elems(dst[off..off + k]) <= old(inflight)
      ensures inflight == old(inflight) - Elems(dst[off..off + k])
      ensures log == old(log) + [Polled(n, k)]
      ensures dst[..off] == old(dst[..off]) && dst[off + k..] == old(dst[off + k..])
    {
      var t := Pick(inflight, n, false);
      k := |t|;
      forall i | 0 <= i < k {
        dst[off + i] := t[i];
      }
      assert dst[off..off + k] == t;
      inflight := inflight - Elems(t);
      log := log + [Polled(n, k)];
    }
  }
}
