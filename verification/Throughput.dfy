/** The throughput benchmark of the crypto performance application: operations move between
    the mempool, the burst array and the device until total_ops of them went through.

    Both loops poll the device, which may never answer. A run therefore carries a budget of
    polls; a run that exhausts it stands for any prefix of a longer run.
  */
module Throughput {

  import opened CryptoDevice

  datatype Outcome = Completed | PoolExhausted | OutOfPolls

  /** Every operation is in exactly one place: free, held back in the burst array, in flight. */
  ghost predicate Partition(all: set<Op>, free: set<Op>, held: seq<Op>, inflight: set<Op>) {
    && Distinct(held)
    && free !! Elems(held)
    && free !! inflight
    && inflight !! Elems(held)
    && all == free + Elems(held) + inflight
  }

  function BurstSize(testBurst: nat, total: nat, enqTotal: nat): nat
    requires enqTotal <= total
  {
    if enqTotal + testBurst <= total then testBurst else total - enqTotal
  }

  lemma SameTail<T>(a: seq<T>, b: seq<T>, from: nat, lo: nat, hi: nat)
    requires from <= |a| == |b| && a[from..] == b[from..]
    requires lo <= hi <= |a|
    requires from <= lo || lo == hi
    ensures a[lo..hi] == b[lo..hi]
  {
    forall i | 0 <= i < hi - lo
      ensures a[lo..hi][i] == b[lo..hi][i]
    {
      assert a[from..][lo + i - from] == b[from..][lo + i - from];
    }
  }

  /** Fresh operations join the ones held back. */
  lemma JoinHeld(all: set<Op>, free: set<Op>, got: seq<Op>, held: seq<Op>, inflight: set<Op>)
    requires Partition(all, free, held, inflight)
    requires Distinct(got) && Elems(got) <= free
    ensures Partition(all, free - Elems(got), got + held, inflight)
    ensures Elems(got + held) == Elems(got) + Elems(held)
  {
    DistinctConcat(got, held);
  }

  lemma EmptyBurst(all: set<Op>)
    ensures Partition(all, all, [], {}) && Elems([]) == {}
  {}

  /** The device takes a prefix of the burst, the rest stays behind. */
  lemma AcceptPrefix(all: set<Op>, free: set<Op>, offered: seq<Op>, inflight: set<Op>, k: nat)
    requires k <= |offered| && Partition(all, free, offered, inflight)
    ensures Partition(all, free, offered[k..], inflight + Elems(offered[..k]))
    ensures |inflight + Elems(offered[..k])| == |inflight| + k
    ensures Elems(offered[k..]) <= Elems(offered)
  {
    DistinctSplit(offered, k);
    DistinctCount(offered[..k]);
  }

  /** What is held may be offered. */
  lemma MayOffer(all: set<Op>, free: set<Op>, held: seq<Op>, inflight: set<Op>)
    requires Partition(all, free, held, inflight)
    ensures Distinct(held) && Elems(held) !! inflight
  {}

  lemma SubsetTrans(a: seq<Op>, b: seq<Op>, populated: set<Op>)
    requires Elems(a) <= Elems(b) && Elems(b) <= populated
    ensures Elems(a) <= populated
  {}

  /** The device hands some operations back, the pool takes them. */
  lemma ReturnBurst(all: set<Op>, free: set<Op>, held: seq<Op>, inflight: set<Op>, back: seq<Op>)
    requires Partition(all, free, held, inflight)
    requires Distinct(back) && Elems(back) <= inflight
    ensures Partition(all, free + Elems(back), held, inflight - Elems(back))
    ensures |inflight - Elems(back)| == |inflight| - |back|
  {
    DistinctCount(back);
  }

  datatype Options = Options(total: nat, minBurst: nat, maxBurst: nat, incBurst: nat, burstList: seq<nat>)

  /** The k-th size of the range, in a uint16_t. */
  ghost function RangeSize(options: Options, k: nat): nat {
    (options.minBurst + k * options.incBurst) % 0x1_0000
  }

  /** A size that wraps at 2^16 at every step is the whole sum taken modulo 2^16. */
  lemma NextSize(options: Options, k: nat)
    ensures (RangeSize(options, k) + options.incBurst) % 0x1_0000 == RangeSize(options, k + 1)
  {
    assert (k + 1) * options.incBurst == k * options.incBurst + options.incBurst;
  }

  /** The first sizes of the list, modulo 2^16, none of them too large. */
  ghost predicate OfList(options: Options, passes: seq<nat>) {
    && |passes| <= |options.burstList|
    && forall i :: 0 <= i < |passes| ==> passes[i] == options.burstList[i] % 0x1_0000 <= options.maxBurst
  }

  /** The first sizes of the range, likewise. */
  ghost predicate OfRange(options: Options, passes: seq<nat>) {
    forall i :: 0 <= i < |passes| ==>
      passes[i] == RangeSize(options, i) <= options.maxBurst
  }

  /** The calls to the device from `first` to `now` are those of one complete pass for each of these
      sizes: bursts of this size, `total` operations accepted and as many returned. */
  ghost predicate Ran(first: seq<Call>, now: seq<Call>, total: nat, passes: seq<nat>)
    decreases |passes|
  {
    if passes == [] then now == first
    else
      exists last: seq<Call> ::
        && Ran(first, last, total, passes[..|passes| - 1]) && last <= now
        && Logged(last, now, total, passes[|passes| - 1], total, total, PollsIn(now[|last|..]))
  }

  lemma RanNone(log: seq<Call>, total: nat)
    ensures Ran(log, log, total, [])
  {}

  lemma RanOnce(first: seq<Call>, last: seq<Call>, now: seq<Call>, total: nat, passes: seq<nat>, size: nat, polls: nat)
    requires Ran(first, last, total, passes) && Logged(last, now, total, size, total, total, polls)
    ensures Ran(first, now, total, passes + [size])
  {
    hide InBursts;
    assert (passes + [size])[..|passes|] == passes;
  }

  lemma NoSizes(options: Options)
    ensures OfList(options, []) && OfRange(options, []) && RangeSize(options, 0) == options.minBurst % 0x1_0000
  {}

  lemma OneMoreSize(options: Options, passes: seq<nat>, size: nat)
    requires size <= options.maxBurst
    ensures OfList(options, passes) && |passes| < |options.burstList|
            && size == options.burstList[|passes|] % 0x1_0000 ==>
              OfList(options, passes + [size])
    ensures OfRange(options, passes) && size == RangeSize(options, |passes|) ==>
              OfRange(options, passes + [size])
  {}

  class Runner {
    const ops: array<Op>
    const processed: array<Op>
    const pool: Mempool
    const dev: Cryptodev
    // the operations whose fields were filled since they last left the pool
    ghost var populated: set<Op>
    // the burst sizes of the passes that were completed
    ghost var passes: seq<nat>

    constructor (maxBurst: nat, pool: Mempool, dev: Cryptodev)
      ensures this.pool == pool && this.dev == dev
      ensures fresh(ops) && fresh(processed) && ops != processed
      ensures ops.Length == processed.Length == maxBurst
    {
      this.pool := pool;
      this.dev := dev;
      ops := new Op[maxBurst];
      processed := new Op[maxBurst];
      populated, passes := {}, [];
    }

    /** The slice [lo..hi) of the burst array holds the operations that are neither free nor in
        flight, all of them filled. */
    ghost predicate Holding(all: set<Op>, lo: nat, hi: nat)
      reads this, ops, pool, dev
    {
      && lo <= hi <= ops.Length
      && Partition(all, pool.free, ops[lo..hi], dev.inflight)
      && Elems(ops[lo..hi]) <= populated
    }

    /** The loop invariant. `enqd` operations of the last burst were accepted, the `unused`
        behind them were held back. */
    ghost predicate Inv(all: set<Op>, total: nat, testBurst: nat, enqd: nat, unused: nat,
                        enqTotal: nat, deqTotal: nat, before: seq<Call>, polls: nat)
      reads this, ops, pool, dev
    {
      && Logged(before, dev.log, total, testBurst, enqTotal, deqTotal, polls)
      && ops != processed
      && testBurst <= ops.Length && testBurst <= processed.Length
      && enqd + unused <= testBurst
      && Holding(all, enqd, enqd + unused)
      && enqTotal + unused <= total
      && enqTotal == deqTotal + |dev.inflight|
      && (unused > 0 ==> BurstSize(testBurst, total, enqTotal) <= enqd + unused)
    }

    method Populate(n: nat)
      requires n <= ops.Length
      modifies this`populated
      ensures populated == old(populated) + Elems(ops[..n])
    {
      populated := populated + Elems(ops[..n]);
    }

    /** memmove(&ops[to], &ops[from], n) */
    method MoveOps(to: nat, from: nat, n: nat)
      requires to <= from && from + n <= ops.Length
      modifies ops
      ensures ops[to..to + n] == old(ops[from..from + n])
      ensures ops[..to] == old(ops[..to])
    {
      forall i | 0 <= i < n {
        ops[to + i] := ops[from + i];
      }
    }

    /** Takes fresh operations into the front of the burst array and fills their fields. */
    method TakeFresh(needed: nat) returns (ok: bool)
      requires needed <= ops.Length
      modifies this`populated, ops, pool
      ensures pool.refused == old(pool.refused) + if ok then 0 else 1
      ensures !ok ==> pool.free == old(pool.free) && populated == old(populated) && ops[..] == old(ops[..])
      ensures ok ==> Distinct(ops[..needed]) && Elems(ops[..needed]) <= old(pool.free)
      ensures ok ==> pool.free == old(pool.free) - Elems(ops[..needed])
      ensures ok ==> populated == old(populated) + Elems(ops[..needed])
      ensures ops[needed..] == old(ops[needed..])
    {
      ok := pool.GetBulk(ops, 0, needed);
      if ok {
        assert ops[0..0 + needed] == ops[..needed];
        ghost var stale := populated - Elems(ops[..needed]);
        populated := stale;
        Populate(needed);
        assert populated == old(populated) + Elems(ops[..needed]);
      }
    }

    /** First half of a round: tops the burst array up to `burst` operations. */
    method FillBurst(ghost all: set<Op>, enqd: nat, unused: nat, burst: nat) returns (ok: bool)
      requires unused <= burst <= ops.Length
      requires unused > 0 ==> burst <= enqd + unused
      requires Holding(all, enqd, enqd + unused)
      modifies this`populated, ops, pool
      ensures pool.refused == old(pool.refused) + if ok then 0 else 1
      ensures !ok ==> Holding(all, enqd, enqd + unused)
      ensures ok ==> Holding(all, 0, burst)
      // the operations held back close the burst, so none of them is dropped
      ensures ok ==> ops[burst - unused..burst] == old(ops[enqd..enqd + unused])
    {
      var needed := burst - unused;
      ghost var held := ops[enqd..enqd + unused];
      ghost var free, start := pool.free, ops[..];
      ok := TakeFresh(needed);
      if !ok {
        assert ops[enqd..enqd + unused] == ops[..][enqd..enqd + unused];
        return;
      }
      ghost var got := ops[..needed];
      SameTail(start, ops[..], needed, enqd, enqd + unused);
      assert ops[enqd..enqd + unused] == held;
      if enqd > needed {
        MoveOps(needed, enqd, unused);
      }
      JoinHeld(all, free, got, held, dev.inflight);
      assert ops[needed..burst] == held;
      assert ops[..needed] == got;
      assert ops[0..burst] == got + held;
    }

    /** One iteration of the enqueue loop. */
    method Round(ghost all: set<Op>, total: nat, testBurst: nat, enqd: nat, unused: nat,
                 enqTotal: nat, deqTotal: nat, ghost before: seq<Call>, ghost polls: nat)
      returns (ok: bool, enqd': nat, unused': nat, enqTotal': nat, deqTotal': nat)
      requires Inv(all, total, testBurst, enqd, unused, enqTotal, deqTotal, before, polls)
      requires enqTotal < total
      modifies this`populated, ops, processed, pool, dev
      ensures Inv(all, total, testBurst, enqd', unused', enqTotal', deqTotal', before, if ok then polls + 1 else polls)
      ensures pool.refused == old(pool.refused) + if ok then 0 else 1
      ensures !ok ==> enqd' == enqd && unused' == unused && enqTotal' == enqTotal && deqTotal' == deqTotal
      ensures ok ==> enqTotal' == enqTotal + enqd'
      ensures ok ==> enqd' + unused' == BurstSize(testBurst, total, enqTotal)
    {
      hide Partition, Elems, Distinct, Logged;
      enqd', unused', enqTotal', deqTotal' := enqd, unused, enqTotal, deqTotal;
      var burst := BurstSize(testBurst, total, enqTotal);
      ok := FillBurst(all, enqd, unused, burst);
      if !ok {
        return;
      }
      ghost var log := dev.log;
      enqd', deqTotal' := Exchange(all, testBurst, burst, deqTotal);
      OfferLogged(before, log, total, testBurst, enqTotal, deqTotal, polls, burst, enqd');
      PollLogged(before, log + [Offered(burst, enqd')], total, testBurst, enqTotal + enqd', deqTotal, polls,
                 deqTotal' - deqTotal);
      unused', enqTotal' := burst - enqd', enqTotal + enqd';
    }

    /** Second half of a round: offers the burst, then polls the device once. */
    method Exchange(ghost all: set<Op>, testBurst: nat, burst: nat, deqTotal: nat)
      returns (enqd: nat, deqTotal': nat)
      requires ops != processed && testBurst <= processed.Length
      requires Holding(all, 0, burst)
      modifies processed, pool, dev
      ensures enqd <= burst
      ensures Holding(all, enqd, burst)
      ensures deqTotal' + |dev.inflight| == deqTotal + old(|dev.inflight|) + enqd
      ensures deqTotal' >= deqTotal
      ensures dev.log == old(dev.log) + [Offered(burst, enqd)] + [Polled(testBurst, deqTotal' - deqTotal)]
      ensures pool.refused == old(pool.refused)
    {
      enqd := Offer(all, burst);
      ghost var held := ops[enqd..burst];
      deqTotal' := Dequeue(all, held, testBurst, deqTotal);
      assert ops[enqd..burst] == held;
    }

    /** Offers the whole burst; the device takes a prefix of it. */
    method Offer(ghost all: set<Op>, burst: nat) returns (enqd: nat)
      requires Holding(all, 0, burst)
      modifies dev
      ensures enqd <= burst
      ensures Holding(all, enqd, burst)
      ensures |dev.inflight| == old(|dev.inflight|) + enqd
      ensures dev.log == old(dev.log) + [Offered(burst, enqd)]
    {
      hide Partition, Distinct, Elems;
      ghost var offered, inflight := ops[0..burst], dev.inflight;
      assert ops[0..0 + burst] == offered;
      MayOffer(all, pool.free, offered, inflight);
      enqd := dev.EnqueueBurst(ops, 0, burst, populated);
      assert ops[0..0 + enqd] == offered[..enqd];
      assert ops[enqd..burst] == offered[enqd..];
      AcceptPrefix(all, pool.free, offered, inflight, enqd);
      SubsetTrans(offered[enqd..], offered, populated);
    }

    /** Polls the device once and frees what it returned. */
    method Dequeue(ghost all: set<Op>, ghost held: seq<Op>, testBurst: nat, deqTotal: nat)
      returns (deqTotal': nat)
      requires ops != processed && testBurst <= processed.Length
      requires Partition(all, pool.free, held, dev.inflight)
      modifies processed, pool, dev
      ensures Partition(all, pool.free, held, dev.inflight)
      ensures deqTotal' + |dev.inflight| == deqTotal + old(|dev.inflight|)
      ensures deqTotal' >= deqTotal && dev.log == old(dev.log) + [Polled(testBurst, deqTotal' - deqTotal)]
      ensures pool.refused == old(pool.refused)
    {
      deqTotal' := deqTotal;
      ghost var free, inflight := pool.free, dev.inflight;
      var deqd := dev.DequeueBurst(processed, 0, testBurst);
      ghost var back := processed[0..0 + deqd];
      ReturnBurst(all, free, held, inflight, back);
      if deqd != 0 {
        pool.PutBulk(processed, 0, deqd);
        deqTotal' := deqTotal + deqd;
      } else {
        assert Elems(back) == {};
      }
    }

    /** What the device was asked and answered in a pass, by its own account; a pass that is cut short
        used up its polls. */
    ghost predicate PassLog(before: seq<Call>, total: nat, testBurst: nat, enqTotal: nat, deqTotal: nat,
                            polls: nat, pollsLeft: nat, outcome: Outcome)
      reads dev
    {
      && pollsLeft <= polls && (outcome == OutOfPolls ==> pollsLeft == 0)
      && (outcome != PoolExhausted ==>
            Logged(before, dev.log, total, testBurst, enqTotal, deqTotal, polls - pollsLeft))
      && (outcome == PoolExhausted ==>
            pollsLeft < polls && Logged(before, dev.log, total, testBurst, enqTotal, deqTotal, polls - pollsLeft - 1))
    }

    lemma LogGrows(before: seq<Call>, total: nat, testBurst: nat, enqTotal: nat, deqTotal: nat, polls: nat,
                   pollsLeft: nat, outcome: Outcome)
      requires PassLog(before, total, testBurst, enqTotal, deqTotal, polls, pollsLeft, outcome)
      ensures before <= dev.log && (outcome == OutOfPolls ==> pollsLeft == 0)
      ensures outcome != PoolExhausted ==> PollsIn(dev.log[|before|..]) == polls - pollsLeft
      ensures outcome == Completed ==> Logged(before, dev.log, total, testBurst, enqTotal, deqTotal, polls - pollsLeft)
    {}

    /** Enqueues until total operations were accepted. */
    method EnqueueAll(ghost all: set<Op>, total: nat, testBurst: nat, polls: nat)
      returns (outcome: Outcome, enqTotal: nat, deqTotal: nat, pollsLeft: nat, ghost held: seq<Op>)
      requires ops != processed && testBurst <= ops.Length && testBurst <= processed.Length
      requires pool.free == all && dev.inflight == {}
      modifies this`populated, ops, processed, pool, dev
      ensures Partition(all, pool.free, held, dev.inflight)
      ensures enqTotal == deqTotal + |dev.inflight| && enqTotal + |held| <= total
      ensures outcome == Completed <==> enqTotal == total
      ensures pollsLeft <= polls
      ensures PassLog(old(dev.log), total, testBurst, enqTotal, deqTotal, polls, pollsLeft, outcome)
      ensures pool.refused == old(pool.refused) + if outcome == PoolExhausted then 1 else 0
    {
      hide Partition, Distinct, Logged;
      NothingLogged(dev.log, total, testBurst);
      var enqd: nat, unused: nat := 0, 0;
      enqTotal, deqTotal, pollsLeft := 0, 0, polls;
      EmptyBurst(all);
      assert ops[0..0] == [];
      while enqTotal < total
        invariant pollsLeft <= polls && pool.refused == old(pool.refused)
        invariant Inv(all, total, testBurst, enqd, unused, enqTotal, deqTotal, old(dev.log), polls - pollsLeft)
        decreases pollsLeft
      {
        if pollsLeft == 0 {
          return OutOfPolls, enqTotal, deqTotal, pollsLeft, ops[enqd..enqd + unused];
        }
        pollsLeft := pollsLeft - 1;
        var ok;
        ok, enqd, unused, enqTotal, deqTotal :=
          Round(all, total, testBurst, enqd, unused, enqTotal, deqTotal, old(dev.log), polls - (pollsLeft + 1));
        if !ok {
          return PoolExhausted, enqTotal, deqTotal, pollsLeft, ops[enqd..enqd + unused];
        }
      }
      return Completed, enqTotal, deqTotal, pollsLeft, ops[enqd..enqd + unused];
    }

    /** Dequeues what is still in the device. */
    method Drain(ghost all: set<Op>, ghost held: seq<Op>, total: nat, testBurst: nat, deqTotal: nat, polls: nat,
                 ghost before: seq<Call>, ghost used: nat)
      returns (ok: bool, deqTotal': nat, pollsLeft: nat)
      requires ops != processed && testBurst <= processed.Length
      requires Partition(all, pool.free, held, dev.inflight)
      requires total == deqTotal + |dev.inflight|
      requires Logged(before, dev.log, total, testBurst, total, deqTotal, used)
      modifies processed, pool, dev
      ensures pollsLeft <= polls
      ensures Logged(before, dev.log, total, testBurst, total, deqTotal', used + polls - pollsLeft)
      ensures pool.refused == old(pool.refused) && (!ok ==> pollsLeft == 0)
      ensures Partition(all, pool.free, held, dev.inflight)
      ensures total == deqTotal' + |dev.inflight|
      ensures ok ==> deqTotal' == total
    {
      hide Partition, Logged;
      deqTotal', pollsLeft := deqTotal, polls;
      while deqTotal' < total
        invariant pollsLeft <= polls && pool.refused == old(pool.refused)
        invariant Logged(before, dev.log, total, testBurst, total, deqTotal', used + polls - pollsLeft)
        invariant Partition(all, pool.free, held, dev.inflight)
        invariant total == deqTotal' + |dev.inflight|
        decreases pollsLeft
      {
        if pollsLeft == 0 {
          return false, deqTotal', pollsLeft;
        }
        ghost var log, was := dev.log, deqTotal';
        deqTotal' := Dequeue(all, held, testBurst, deqTotal');
        PollLogged(before, log, total, testBurst, total, was, used + polls - pollsLeft, deqTotal' - was);
        pollsLeft := pollsLeft - 1;
      }
      ok := true;
    }

    /** One burst size: enqueue until total operations were accepted, then drain the device. */
    method RunBurstSize(ghost all: set<Op>, total: nat, testBurst: nat, polls: nat)
      returns (outcome: Outcome, enqTotal: nat, deqTotal: nat, pollsLeft: nat, ghost held: seq<Op>)
      requires ops != processed && testBurst <= ops.Length && testBurst <= processed.Length
      requires pool.free == all && dev.inflight == {}
      modifies this, ops, processed, pool, dev
      // however the run ends, nothing is lost and nothing is in two places
      ensures Partition(all, pool.free, held, dev.inflight)
      ensures enqTotal == deqTotal + |dev.inflight| && enqTotal + |held| <= total
      ensures outcome == Completed ==>
        enqTotal == deqTotal == total && pool.free == all && dev.inflight == {} && held == []
      ensures outcome == PoolExhausted ==> enqTotal < total
      ensures pollsLeft <= polls
      // by the device's own account: the bursts had the size asked for, and the counters are right
      ensures PassLog(old(dev.log), total, testBurst, enqTotal, deqTotal, polls, pollsLeft, outcome)
      ensures pool.refused == old(pool.refused) + if outcome == PoolExhausted then 1 else 0
      ensures passes == if outcome == Completed then old(passes) + [testBurst] else old(passes)
    {
      outcome, enqTotal, deqTotal, pollsLeft, held := EnqueueAll(all, total, testBurst, polls);
      if outcome == Completed {
        var ok;
        ok, deqTotal, pollsLeft :=
          Drain(all, held, total, testBurst, deqTotal, pollsLeft, old(dev.log), polls - pollsLeft);
        if !ok {
          outcome := OutOfPolls;
          return;
        }
        passes := passes + [testBurst];
      }
    }

    lemma NoPolls()
      ensures PollsIn([]) == 0
    {}

    /** The whole runner: one pass for each burst size of the range or of the list. The burst
        size and the list index are the uint16_t and uint8_t variables of the source. */
    method Run(ghost all: set<Op>, options: Options, polls: nat)
      returns (outcome: Outcome, ghost held: seq<Op>)
      requires ops != processed && options.maxBurst <= ops.Length && options.maxBurst <= processed.Length
      requires options.incBurst == 0 ==> 0 < |options.burstList| <= 255
      requires pool.free == all && dev.inflight == {}
      modifies this, ops, processed, pool, dev
      ensures Partition(all, pool.free, held, dev.inflight)
      ensures outcome == Completed ==> pool.free == all && dev.inflight == {} && held == []
      // the burst sizes that were run: those of the list up to the first that is too large
      ensures options.incBurst == 0 ==>
        && OfList(options, passes)
        && (outcome == Completed && |passes| < |options.burstList| ==>
              options.burstList[|passes|] % 0x1_0000 > options.maxBurst)
      // or those of the range up to the first that is too large
      ensures options.incBurst != 0 ==>
        && OfRange(options, passes)
        && (outcome == Completed ==>
              RangeSize(options, |passes|) > options.maxBurst)
      // each of them completely, by the device's own account, and none twice
      ensures exists last :: last <= dev.log && Ran(old(dev.log), last, options.total, passes)
      ensures outcome == Completed ==> Ran(old(dev.log), dev.log, options.total, passes)
      ensures outcome == PoolExhausted <==> pool.refused != old(pool.refused)
      // giving up takes the whole budget, of which a pass takes one more than its polls
      ensures old(dev.log) <= dev.log
      ensures outcome == OutOfPolls ==> polls <= PollsIn(dev.log[|old(dev.log)|..]) + |passes| + 1
    {
      hide Partition, Logged, PassLog, PollsIn, OfList, OfRange, RangeSize, Ran;
      RanNone(dev.log, options.total);
      assert dev.log[|dev.log|..] == [];
      NoPolls();
      NoSizes(options);
      held, passes := [], [];
      EmptyBurst(all);
      var left: nat := polls;
      var index := 0;
      var testBurst: nat := (if options.incBurst != 0 then options.minBurst else options.burstList[0]) % 0x1_0000;
      while testBurst <= options.maxBurst
        invariant options.incBurst == 0 ==> index < |options.burstList|
        invariant pool.free == all && dev.inflight == {} && held == []
        invariant pool.refused == old(pool.refused) && Ran(old(dev.log), dev.log, options.total, passes)
        invariant old(dev.log) <= dev.log && polls == left + |passes| + PollsIn(dev.log[|old(dev.log)|..])
        invariant options.incBurst == 0 ==>
          |passes| == index && testBurst == options.burstList[index] % 0x1_0000 && OfList(options, passes)
        invariant options.incBurst != 0 ==>
          testBurst == RangeSize(options, |passes|) && OfRange(options, passes)
        decreases left
      {
        if left == 0 {
          return OutOfPolls, held;
        }
        var enqTotal, deqTotal;
        var before := left - 1;
        ghost var log := dev.log;
        outcome, enqTotal, deqTotal, left, held := RunBurstSize(all, options.total, testBurst, before);
        LogGrows(log, options.total, testBurst, enqTotal, deqTotal, before, left, outcome);
        PollsSince(old(dev.log), log, dev.log);
        if outcome != Completed {
          return;
        }
        RanOnce(old(dev.log), log, dev.log, options.total, passes[..|passes| - 1], testBurst, before - left);
        OneMoreSize(options, passes[..|passes| - 1], testBurst);
        if options.incBurst != 0 {
          NextSize(options, |passes| - 1);
          testBurst := (testBurst + options.incBurst) % 0x1_0000;
        } else {
          index := index + 1;
          if index == |options.burstList| {
            break;
          }
          testBurst := options.burstList[index] % 0x1_0000;
        }
      }
      outcome := Completed;
    }
  }
}
