/** The cycle count benchmark of the crypto performance application. It fills the whole
    descriptor ring from one array, dequeues into the same array, and frees by array position
    whatever it had allocated.
  */
module Cyclecount {

  import opened CryptoDevice

  datatype Outcome = Completed | PoolExhausted | OutOfPolls

  function Min(a: nat, b: nat): nat {
    if a < b then a else b
  }

  /** Two bursts without repetition over the same set are rearrangements of each other. */
  lemma {:induction false} SameSetSameMultiset(a: seq<Op>, b: seq<Op>)
    requires Distinct(a) && Distinct(b) && Elems(a) == Elems(b)
    ensures multiset(a) == multiset(b)
  {
    forall x
      ensures multiset(a)[x] == multiset(b)[x]
    {
      Once(a, x);
      Once(b, x);
    }
  }

  lemma {:induction false} Once(s: seq<Op>, x: Op)
    requires Distinct(s)
    ensures multiset(s)[x] == if x in Elems(s) then 1 else 0
  {
    if s != [] {
      var n := |s| - 1;
      assert s == s[..n] + [s[n]];
      Once(s[..n], x);
    }
  }

  /** One more poll: the slots filled so far and the operations still in flight share `sent`. */
  lemma Refill(sent: set<Op>, filled: seq<Op>, inflight: set<Op>, more: seq<Op>)
    requires Distinct(filled) && Elems(filled) !! inflight && Elems(filled) + inflight == sent
    requires Distinct(more) && Elems(more) <= inflight
    ensures Distinct(filled + more) && Elems(filled + more) !! inflight - Elems(more)
    ensures Elems(filled + more) + (inflight - Elems(more)) == sent
    ensures |inflight - Elems(more)| == |inflight| - |more|
  {
    DistinctConcat(filled, more);
    DistinctCount(more);
  }

  /** Offers of which a part was accepted, and polls that returned less than was asked for. */
  ghost function ShortOffers(calls: seq<Call>): nat {
    if calls == [] then 0
    else
      var c := calls[|calls| - 1];
      ShortOffers(calls[..|calls| - 1]) + if c.Offered? && 0 < c.accepted < c.size then 1 else 0
  }

  ghost function ShortPolls(calls: seq<Call>): nat {
    if calls == [] then 0
    else
      var c := calls[|calls| - 1];
      ShortPolls(calls[..|calls| - 1]) + if c.Polled? && c.returned < c.size then 1 else 0
  }

  /** Since `before`, by the device's own account: the ring was filled in bursts, `enqd` operations were
      accepted, some offers only in part. */
  ghost predicate Filled(before: seq<Call>, now: seq<Call>, needed: nat, testBurst: nat, enqd: nat, retries: int) {
    Logged(before, now, needed, testBurst, enqd, 0, 0) && ShortOffers(now[|before|..]) == retries
  }

  /** It was drained in bursts, of testBurst operations or what is left if that is less. */
  ghost predicate Drained(before: seq<Call>, now: seq<Call>, sent: nat, testBurst: nat, deqd: nat, retries: int,
                          polls: nat)
  {
    && before <= now
    && var calls := now[|before|..];
    && (forall j :: 0 <= j < |calls| ==>
          && calls[j].Polled? && ReturnedIn(calls[..j]) <= sent
          && calls[j].size == (if testBurst < sent - ReturnedIn(calls[..j]) then testBurst
                               else sent - ReturnedIn(calls[..j])))
    && ReturnedIn(calls) == deqd && ShortPolls(calls) == retries && |calls| == polls
  }

  lemma NothingYet(log: seq<Call>, n: nat, testBurst: nat)
    ensures Filled(log, log, n, testBurst, 0, 0) && Drained(log, log, n, testBurst, 0, 0, 0)
  {
    NothingLogged(log, n, testBurst);
  }

  lemma FilledMore(before: seq<Call>, now: seq<Call>, needed: nat, testBurst: nat, enqd: nat, retries: int,
                   n: nat, k: nat)
    requires Filled(before, now, needed, testBurst, enqd, retries) && enqd <= needed
    requires n == if testBurst < needed - enqd then testBurst else needed - enqd
    ensures Filled(before, now + [Offered(n, k)], needed, testBurst, enqd + k,
                   retries + if 0 < k < n then 1 else 0)
  {
    hide InBursts, AcceptedIn, ReturnedIn, PollsIn;
    OfferLogged(before, now, needed, testBurst, enqd, 0, 0, n, k);
    var calls, c := now[|before|..], Offered(n, k);
    assert (now + [c])[|before|..] == calls + [c];
    assert (calls + [c])[..|calls|] == calls;
  }

  lemma DrainedMore(before: seq<Call>, now: seq<Call>, sent: nat, testBurst: nat, deqd: nat, retries: int, polls: nat,
                    n: nat, k: nat)
    requires Drained(before, now, sent, testBurst, deqd, retries, polls) && deqd <= sent
    requires n == if testBurst < sent - deqd then testBurst else sent - deqd
    ensures Drained(before, now + [Polled(n, k)], sent, testBurst, deqd + k,
                    retries + (if k < n then 1 else 0), polls + 1)
  {
    hide ReturnedIn;
    var calls, c := now[|before|..], Polled(n, k);
    var more := calls + [c];
    assert (now + [c])[|before|..] == more;
    assert more[..|calls|] == calls;
    OneMoreCall(calls, c);
    forall j | 0 <= j < |calls|
      ensures more[j] == calls[j] && more[..j] == calls[..j]
    {}
  }

  class State {
    const ops: array<Op>
    const pool: Mempool
    const dev: Cryptodev
    var opsEnqd: nat
    var opsDeqd: nat
    var enqRetries: nat
    var deqRetries: nat
    ghost var populated: set<Op>

    constructor (nbDescriptors: nat, pool: Mempool, dev: Cryptodev)
      ensures this.pool == pool && this.dev == dev && fresh(ops) && ops.Length == nbDescriptors
    {
      this.pool := pool;
      this.dev := dev;
      ops := new Op[nbDescriptors];
      opsEnqd, opsDeqd, enqRetries, deqRetries, populated := 0, 0, 0, 0, {};
    }

    /** Allocates and fills `needed` operations, burst by burst. */
    method BuildOps(needed: nat, testBurst: nat) returns (ok: bool, ghost built: nat)
      requires needed <= ops.Length && 0 < testBurst
      modifies this`populated, ops, pool
      ensures built <= needed && (ok ==> built == needed)
      ensures Distinct(ops[..built]) && Elems(ops[..built]) <= old(pool.free)
      ensures pool.free == old(pool.free) - Elems(ops[..built])
      ensures Elems(ops[..built]) <= populated
      ensures pool.refused == old(pool.refused) + if ok then 0 else 1
    {
      var cur := 0;
      built := 0;
      assert ops[..0] == [];
      while cur < needed
        invariant built == if cur < needed then cur else needed
        invariant Distinct(ops[..built]) && Elems(ops[..built]) <= old(pool.free)
        invariant pool.free == old(pool.free) - Elems(ops[..built])
        invariant Elems(ops[..built]) <= populated && pool.refused == old(pool.refused)
        decreases needed - cur
      {
        var burst := Min(needed - cur, testBurst);
        ghost var before, free := ops[..cur], pool.free;
        ok := pool.GetBulk(ops, cur, burst);
        assert ops[..cur] == before;
        if !ok {
          return false, built;
        }
        ghost var got := ops[cur..cur + burst];
        DistinctConcat(before, got);
        assert ops[..cur + burst] == before + got;
        populated := populated + Elems(got);
        built := cur + burst;
        cur := cur + testBurst;
      }
      ok := true;
    }

    /** Fills the ring: returns how many of the first `needed` operations were accepted. */
    method BenchEnq(needed: nat, testBurst: nat) returns (enqd: nat)
      requires needed <= ops.Length && 0 < testBurst
      requires Distinct(ops[..needed]) && Elems(ops[..needed]) <= populated && dev.inflight == {}
      modifies this`opsEnqd, this`enqRetries, dev
      ensures enqd <= needed
      ensures dev.inflight == Elems(ops[..enqd])
      ensures opsEnqd == old(opsEnqd) + enqd
      ensures Filled(old(dev.log), dev.log, needed, testBurst, enqd, enqRetries - old(enqRetries))
      // it stops early exactly when the device accepts nothing
      ensures enqd < needed ==> |dev.log| > |old(dev.log)| && dev.log[|dev.log| - 1].Offered?
                                && dev.log[|dev.log| - 1].accepted == 0
    {
      hide Filled, Distinct, Elems;
      NothingYet(dev.log, needed, testBurst);
      NoneIn(ops[..0]);
      var cur := 0;
      while cur < needed
        invariant cur <= needed
        invariant dev.inflight == Elems(ops[..cur])
        invariant opsEnqd == old(opsEnqd) + cur && |old(dev.log)| <= |dev.log|
        invariant Filled(old(dev.log), dev.log, needed, testBurst, cur, enqRetries - old(enqRetries))
      {
        var burst := Min(needed - cur, testBurst);
        var burstEnqd := OfferRing(needed, cur, burst);
        FilledMore(old(dev.log), dev.log[..|dev.log| - 1], needed, testBurst, cur, enqRetries - old(enqRetries), burst,
                   burstEnqd);
        if burstEnqd == 0 {
          return cur;
        }
        if burstEnqd < burst {
          enqRetries := enqRetries + 1;
        }
        opsEnqd := opsEnqd + burstEnqd;
        cur := cur + burstEnqd;
      }
      enqd := needed;
    }

    lemma NoneIn(s: seq<Op>)
      ensures s == [] ==> Elems(s) == {}
    {}

    /** Offers the next burst of the ring. */
    method OfferRing(ghost needed: nat, cur: nat, burst: nat) returns (burstEnqd: nat)
      requires cur + burst <= needed <= ops.Length
      requires Distinct(ops[..needed]) && Elems(ops[..needed]) <= populated && dev.inflight == Elems(ops[..cur])
      modifies dev
      ensures burstEnqd <= burst && dev.inflight == Elems(ops[..cur + burstEnqd])
      ensures dev.log == old(dev.log) + [Offered(burst, burstEnqd)] && dev.log[..|dev.log| - 1] == old(dev.log)
    {
      ghost var built := ops[..needed];
      assert ops[cur..cur + burst] == built[cur..cur + burst];
      assert ops[..cur] == built[..cur];
      forall x | x in ops[cur..cur + burst]
        ensures x in Elems(built) && x !in Elems(ops[..cur])
      {
        var j :| 0 <= j < burst && built[cur..cur + burst][j] == x;
        assert built[cur + j] == x;
      }
      burstEnqd := dev.EnqueueBurst(ops, cur, burst, populated);
      assert ops[..cur + burstEnqd] == ops[..cur] + ops[cur..cur + burstEnqd];
    }

    /** Drains the ring back into the array it was filled from. */
    method BenchDeq(sent: nat, testBurst: nat, polls: nat) returns (ok: bool, left: nat, ghost deqd: nat)
      requires sent <= ops.Length
      requires Distinct(ops[..sent]) && dev.inflight == Elems(ops[..sent])
      modifies this`opsDeqd, this`deqRetries, ops, dev
      ensures ok ==> dev.inflight == {} && opsDeqd == old(opsDeqd) + sent
      // the array holds the same operations as before, in the device's order
      ensures ok ==> Distinct(ops[..sent]) && multiset(ops[..sent]) == multiset(old(ops[..sent]))
      ensures ops[sent..] == old(ops[sent..])
      ensures left <= polls && (!ok ==> left == 0)
      ensures deqd <= sent && (ok ==> deqd == sent)
      ensures Drained(old(dev.log), dev.log, sent, testBurst, deqd, deqRetries - old(deqRetries), polls - left)
    {
      ghost var start := ops[..sent];
      DistinctCount(start);
      left := polls;
      NothingYet(dev.log, sent, testBurst);
      var cur := 0;
      while cur < sent
        invariant cur <= sent && left <= polls
        invariant Drained(old(dev.log), dev.log, sent, testBurst, cur, deqRetries - old(deqRetries), polls - left)
        invariant Distinct(ops[..cur]) && Elems(ops[..cur]) !! dev.inflight
        invariant Elems(ops[..cur]) + dev.inflight == Elems(start)
        invariant |dev.inflight| == sent - cur
        invariant ops[sent..] == old(ops[sent..])
        invariant opsDeqd == old(opsDeqd) + cur
        decreases left
      {
        if left == 0 {
          return false, left, cur;
        }
        cur := Poll(Elems(start), sent, cur, testBurst, old(dev.log), old(deqRetries), polls - left);
        left := left - 1;
      }
      SameSetSameMultiset(ops[..sent], start);
      ok, deqd := true, cur;
    }

    method Poll(ghost all: set<Op>, sent: nat, cur: nat, testBurst: nat, ghost before: seq<Call>, ghost retries: nat,
                ghost polls: nat)
      returns (cur': nat)
      requires Drained(before, dev.log, sent, testBurst, cur, deqRetries - retries, polls)
      requires cur < sent <= ops.Length
      requires Distinct(ops[..cur]) && Elems(ops[..cur]) !! dev.inflight
      requires Elems(ops[..cur]) + dev.inflight == all
      modifies this`opsDeqd, this`deqRetries, ops, dev
      ensures cur <= cur' <= sent
      ensures Drained(before, dev.log, sent, testBurst, cur', deqRetries - retries, polls + 1)
      ensures Distinct(ops[..cur']) && Elems(ops[..cur']) !! dev.inflight
      ensures Elems(ops[..cur']) + dev.inflight == all
      ensures |dev.inflight| + cur' == old(|dev.inflight|) + cur
      ensures ops[sent..] == old(ops[sent..])
      ensures opsDeqd - cur' == old(opsDeqd) - cur
    {
      hide Distinct, Elems, Drained;
      ghost var log := dev.log;
      var burst := Min(sent - cur, testBurst);
      ghost var filled, inflight, tail := ops[..cur], dev.inflight, ops[sent..];
      var burstDeqd := dev.DequeueBurst(ops, cur, burst);
      ghost var more := ops[cur..cur + burstDeqd];
      Refill(all, filled, inflight, more);
      DrainedMore(before, log, sent, testBurst, cur, deqRetries - retries, polls, burst, burstDeqd);
      assert ops[..cur] == filled;
      assert ops[..cur + burstDeqd] == filled + more;
      assert ops[sent..] == tail by {
        assert ops[sent..] == ops[cur + burstDeqd..][sent - cur - burstDeqd..];
      }
      if burstDeqd < burst {
        deqRetries := deqRetries + 1;
      }
      opsDeqd := opsDeqd + burstDeqd;
      cur' := cur + burstDeqd;
    }

    /** One pass: build, enqueue, dequeue, free by array position. */
    method Pass(ghost all: set<Op>, needed: nat, testBurst: nat, polls: nat)
      returns (outcome: Outcome, enqd: nat, left: nat, ghost middle: seq<Call>, ghost deqd: nat)
      requires needed <= ops.Length && 0 < testBurst
      requires pool.free == all && dev.inflight == {}
      modifies this, ops, pool, dev
      // the bulk put returns exactly what the bulk gets had taken
      ensures outcome == Completed ==> pool.free == all && dev.inflight == {}
      ensures outcome == Completed ==> enqd <= needed
      ensures outcome == Completed ==> opsEnqd == old(opsEnqd) + enqd && opsDeqd == old(opsDeqd) + enqd
      ensures left <= polls && (outcome == OutOfPolls ==> left == 0)
      ensures pool.refused == old(pool.refused) + if outcome == PoolExhausted then 1 else 0
      // by the device's own account the ring was filled as far as it would go and drained again
      ensures outcome == PoolExhausted ==> dev.log == old(dev.log)
      ensures outcome != PoolExhausted ==>
        && Filled(old(dev.log), middle, needed, testBurst, enqd, enqRetries - old(enqRetries))
        && Drained(middle, dev.log, enqd, testBurst, deqd, deqRetries - old(deqRetries), polls - left)
        && deqd <= enqd && (outcome == Completed ==> deqd == enqd)
        && (enqd < needed ==>
              |middle| > |old(dev.log)| && middle[|middle| - 1].Offered? && middle[|middle| - 1].accepted == 0)
    {
      hide Filled, Drained, Distinct, Elems;
      middle, deqd := dev.log, 0;
      enqd, left := 0, polls;
      var ok;
      ghost var built;
      ok, built := BuildOps(needed, testBurst);
      if !ok {
        return PoolExhausted, enqd, left, middle, deqd;
      }
      ghost var taken := ops[..needed];
      enqd := BenchEnq(needed, testBurst);
      middle := dev.log;
      ghost var sent, rest := ops[..enqd], ops[enqd..];
      DistinctSplit(taken, enqd);
      assert taken[..enqd] == sent;
      ok, left, deqd := BenchDeq(enqd, testBurst, left);
      if !ok {
        return OutOfPolls, enqd, left, middle, deqd;
      }
      ghost var after := ops[..needed];
      assert after[..enqd] == ops[..enqd];
      assert after[enqd..] == rest[..needed - enqd] == taken[enqd..];
      Rearranged(taken, after, enqd);
      assert ops[0..0 + needed] == after;
      pool.PutBulk(ops, 0, needed);
      outcome := Completed;
    }

    /** With its front rearranged the burst is still the same set. */
    lemma Rearranged(taken: seq<Op>, after: seq<Op>, n: nat)
      requires n <= |taken| == |after| && after[n..] == taken[n..] && multiset(after[..n]) == multiset(taken[..n])
      requires Distinct(taken) && Distinct(after[..n])
      ensures Distinct(after) && Elems(after) == Elems(taken)
    {
      SameElems(after[..n], taken[..n]);
      DistinctSplit(taken, n);
      DistinctConcat(after[..n], after[n..]);
      assert after == after[..n] + after[n..];
    }

    lemma SameElems(a: seq<Op>, b: seq<Op>)
      requires multiset(a) == multiset(b)
      ensures Elems(a) == Elems(b)
    {
      forall x
        ensures x in a <==> x in b
      {
        assert x in multiset(a) <==> x in a;
        assert x in multiset(b) <==> x in b;
      }
    }

    lemma NoPolls(log: seq<Call>)
      ensures PollsIn(log[|log|..]) == 0
    {}

    lemma PassPolls(log: seq<Call>, middle: seq<Call>, now: seq<Call>, needed: nat, testBurst: nat, enqd: nat,
                    deqd: nat, polls: nat)
      requires exists a :: Filled(log, middle, needed, testBurst, enqd, a)
      requires exists b :: Drained(middle, now, enqd, testBurst, deqd, b, polls)
      ensures log <= middle <= now && PollsIn(now[|log|..]) == polls
    {
      PollsSince(log, middle, now);
      AllPolls(now[|middle|..]);
    }

    lemma {:induction false} AllPolls(calls: seq<Call>)
      requires forall j :: 0 <= j < |calls| ==> calls[j].Polled?
      ensures PollsIn(calls) == |calls|
    {
      if calls != [] {
        AllPolls(calls[..|calls| - 1]);
      }
    }

    /** The measuring loop for one burst size. */
    method BenchBurstSize(ghost all: set<Op>, total: nat, nbDescriptors: nat, testBurst: nat, polls: nat)
      returns (outcome: Outcome, ghost passes: nat)
      requires nbDescriptors <= ops.Length && 0 < testBurst
      requires pool.free == all && dev.inflight == {}
      modifies this, ops, pool, dev
      ensures outcome == Completed ==> pool.free == all && dev.inflight == {}
      ensures outcome == Completed ==> opsEnqd == opsDeqd == total
      ensures outcome == PoolExhausted <==> pool.refused != old(pool.refused)
      // giving up takes the whole budget, of which a pass takes one more than its polls
      ensures old(dev.log) <= dev.log
      ensures outcome == OutOfPolls ==> polls <= PollsIn(dev.log[|old(dev.log)|..]) + passes + 1
    {
      hide Filled, Drained, PollsIn;
      NoPolls(dev.log);
      passes := 0;
      opsEnqd, enqRetries, opsDeqd, deqRetries := 0, 0, 0, 0;
      var left: nat := polls;
      var curOp := 0;
      while curOp < total
        invariant curOp <= total
        invariant pool.free == all && dev.inflight == {}
        invariant opsEnqd == opsDeqd == curOp && pool.refused == old(pool.refused)
        invariant old(dev.log) <= dev.log && polls == left + passes + PollsIn(dev.log[|old(dev.log)|..])
        decreases left
      {
        if left == 0 {
          return OutOfPolls, passes;
        }
        var needed := Min(nbDescriptors, total - curOp);
        var enqd;
        ghost var middle, deqd, log, before := [], 0, dev.log, left - 1;
        outcome, enqd, left, middle, deqd := Pass(all, needed, testBurst, left - 1);
        if outcome == PoolExhausted {
          return;
        }
        PassPolls(log, middle, dev.log, needed, testBurst, enqd, deqd, before - left);
        PollsSince(old(dev.log), log, dev.log);
        if outcome != Completed {
          return;
        }
        passes := passes + 1;
        curOp := curOp + enqd;
      }
      outcome := Completed;
    }
  }
}
