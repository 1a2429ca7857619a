/** The latency benchmark of the crypto performance application. Every accepted operation gets
    its own result slot with a start and an end time stamp; the slot is found again through a
    pointer kept in the operation's private data.
  */
module Latency {

  import opened CryptoDevice
  import opened Sums
  import Throughput

  datatype Outcome = Completed | PoolExhausted | OutOfPolls

  const NO_MIN: nat := 0xFFFF_FFFF_FFFF_FFFF

  /** Running total, maximum and minimum, as the source initialises and updates them. */
  datatype Stats = Stats(tot: nat, max: nat, min: nat) {
    function Add(v: nat): Stats {
      Stats(tot + v, if v > max then v else max, if v < min then v else min)
    }
  }

  /** Every operation is free or in flight, none is both. */
  ghost predicate Shared(all: set<Op>, free: set<Op>, inflight: set<Op>) {
    free !! inflight && all == free + inflight
  }

  lemma AllFree(all: set<Op>)
    ensures Shared(all, all, {})
  {}

  lemma EnqueueFits(all: set<Op>, free: set<Op>, inflight: set<Op>, offered: seq<Op>)
    requires Shared(all, free + Elems(offered), inflight)
    ensures Elems(offered) !! inflight
  {}

  /** The accepted prefix is in flight; putting the rest back restores the sharing. */
  lemma EnqueueKeeps(all: set<Op>, free: set<Op>, inflight: set<Op>, offered: seq<Op>, k: nat)
    requires Shared(all, free + Elems(offered), inflight) && free !! Elems(offered)
    requires Distinct(offered) && k <= |offered|
    ensures Distinct(offered[..k]) && Distinct(offered[k..])
    ensures free !! Elems(offered[k..]) && inflight !! Elems(offered[..k])
    ensures Shared(all, free + Elems(offered[k..]), inflight + Elems(offered[..k]))
    ensures |inflight + Elems(offered[..k])| == |inflight| + k
    ensures k == |offered| ==> free + Elems(offered[k..]) == free
  {
    DistinctSplit(offered, k);
    DistinctCount(offered[..k]);
  }

  lemma Taken(all: set<Op>, free: set<Op>, inflight: set<Op>, burst: set<Op>)
    requires Shared(all, free, inflight) && burst <= free
    ensures Shared(all, free - burst + burst, inflight)
    ensures free - burst !! burst
  {
    assert free - burst + burst == free;
  }

  lemma Returned(all: set<Op>, free: set<Op>, live: set<Op>, back: seq<Op>)
    requires Shared(all, free, live) && Distinct(back) && Elems(back) <= live
    ensures Shared(all, free + Elems(back), live - Elems(back)) && free !! Elems(back)
    ensures |live| == |live - Elems(back)| + |back|
    ensures back == [] ==> free + Elems(back) == free && live - Elems(back) == live
  {
    DistinctCount(back);
  }

  const NO_STATS := Stats(0, 0, NO_MIN)

  lemma NoSamples()
    ensures Describes(NO_STATS, [])
  {}

  /** tsc_end - tsc_start of the first n slots. */
  ghost function Cycles(start: seq<nat>, end: seq<nat>, n: nat): seq<nat>
    requires n <= |start| && n <= |end|
    requires forall i :: 0 <= i < n ==> start[i] <= end[i]
  {
    seq(n, i requires 0 <= i < n => end[i] - start[i])
  }

  /** enqd_tot/max/min, deqd_tot/max/min and b_idx. */
  datatype Progress = Progress(enq: Stats, deq: Stats, bursts: nat)

  /** `st` describes the values of s: their sum, their largest and their smallest. */
  ghost predicate Describes(st: Stats, s: seq<nat>) {
    && st.tot == Sum(s)
    && (forall v :: v in s ==> st.min <= v <= st.max)
    && (if s == [] then st.max == 0 && st.min == NO_MIN else st.max in s && st.min in s)
  }

  lemma {:induction false} AddDescribes(st: Stats, s: seq<nat>, v: nat)
    requires Describes(st, s) && v <= NO_MIN
    ensures Describes(st.Add(v), s + [v])
  {
    assert (s + [v])[..|s|] == s;
    if s == [] {
      assert s + [v] == [v];
    } else {
      assert st.max in s && st.min in s;
    }
    assert v == (s + [v])[|s|];
    forall w | w in s + [v]
      ensures st.Add(v).min <= w <= st.Add(v).max
    {
      assert w in s || w == v;
    }
  }

  lemma {:induction false} SumBounds(s: seq<nat>, lo: nat, hi: nat)
    requires forall v :: v in s ==> lo <= v <= hi
    ensures |s| * lo <= Sum(s) <= |s| * hi
  {
    if s != [] {
      var n := |s| - 1;
      assert forall v | v in s[..n] :: v in s;
      SumBounds(s[..n], lo, hi);
      assert s[n] in s;
      Distribute(n, 1, lo);
      Distribute(n, 1, hi);
    }
  }

  /** The printed figures are ordered whenever the mean divides by the number of samples. */
  lemma {:induction false} MinAvgMax(st: Stats, s: seq<nat>)
    requires Describes(st, s) && s != []
    ensures st.min <= st.tot / |s| <= st.max
  {
    SumBounds(s, st.min, st.max);
    DivBounds(st.tot, |s|, st.min, st.max);
  }

  lemma DivBounds(t: nat, n: nat, lo: nat, hi: nat)
    requires n > 0 && n * lo <= t <= n * hi
    ensures lo <= t / n <= hi
  {
    QuotientBound(t, n, hi);
    Distribute(hi, 1, n);
    if lo > 0 {
      QuotientBound(t, n, lo - 1);
    }
  }

  /** Answers of non-empty polls of at most `most` operations. */
  ghost predicate Polls(s: seq<nat>, most: nat) {
    forall v :: v in s ==> 1 <= v <= most
  }

  /** Accepted prefixes of bursts of at most `most` operations. */
  ghost predicate Within(s: seq<nat>, most: nat) {
    forall v :: v in s ==> v <= most
  }

  lemma PollsAdd(s: seq<nat>, v: nat, most: nat)
    requires Polls(s, most) && 1 <= v <= most
    ensures Polls(s + [v], most)
  {}

  lemma WithinAdd(s: seq<nat>, v: nat, most: nat)
    requires Within(s, most) && v <= most
    ensures Within(s + [v], most)
  {}

  lemma NoAnswers(most: nat)
    ensures Polls([], most) && Within([], most)
  {}

  /** The dequeue mean divides by the number of enqueue bursts instead. For t operations that come
      back in n polls after `bursts` bursts, the figures are ordered however the polls share them
      out exactly when that mean lies where the mean over the polls lies, rounded down and up. */
  lemma {:induction false} DequeueMeanOrderedIff(n: nat, t: nat, bursts: nat, most: nat)
    requires 0 < n <= t <= n * most && bursts > 0
    ensures (forall s, st :: |s| == n && Polls(s, most) && Sum(s) == t && Describes(st, s) ==>
               st.min <= t / bursts <= st.max)
       <==> t / n <= t / bursts <= (t + n - 1) / n
  {
    if t / n <= t / bursts <= (t + n - 1) / n {
      forall s, st | |s| == n && Polls(s, most) && Sum(s) == t && Describes(st, s)
        ensures st.min <= t / bursts <= st.max
      {
        MeanBetween(s, st);
      }
    } else {
      var s, st := Even(t / n, t % n, n), Stats(t, (t + n - 1) / n, t / n);
      assert t == n * (t / n) + t % n;
      EvenDescribed(t / n, t % n, n);
      EvenPolls(t, n, most);
      RoundedUp(t, n);
      assert |s| == n && Polls(s, most) && Sum(s) == t && Describes(st, s);
    }
  }

  /** The mean over the samples, rounded either way, lies between smallest and largest. */
  lemma {:induction false} MeanBetween(s: seq<nat>, st: Stats)
    requires s != [] && Describes(st, s)
    ensures st.min <= st.tot / |s| && (st.tot + |s| - 1) / |s| <= st.max
  {
    MinAvgMax(st, s);
    SumBounds(s, st.min, st.max);
    QuotientBound(st.tot + |s| - 1, |s|, st.max);
    Distribute(st.max, 1, |s|);
  }

  /** n polls of q operations, r of them with one more. */
  ghost function Even(q: nat, r: nat, n: nat): seq<nat> {
    seq(n, i => if i < r then q + 1 else q)
  }

  lemma {:induction false} EvenSum(q: nat, r: nat, n: nat, k: nat)
    requires k <= n
    ensures Sum(Even(q, r, n)[..k]) == k * q + (if k < r then k else r)
  {
    if k > 0 {
      EvenSum(q, r, n, k - 1);
      SumStep(Even(q, r, n), k - 1);
      Distribute(k - 1, 1, q);
    }
  }

  lemma EvenDescribed(q: nat, r: nat, n: nat)
    requires r < n
    ensures Sum(Even(q, r, n)) == n * q + r
    ensures Describes(Stats(n * q + r, if r == 0 then q else q + 1, q), Even(q, r, n))
  {
    var s := Even(q, r, n);
    EvenSum(q, r, n, n);
    assert s[..n] == s;
    assert s[n - 1] == q && (r > 0 ==> s[0] == q + 1);
  }

  /** Rounding up adds one to the quotient unless nothing is left over. */
  lemma RoundedUp(t: nat, n: nat)
    requires n > 0
    ensures (t + n - 1) / n == if t % n == 0 then t / n else t / n + 1
  {
    var q, r := t / n, t % n;
    assert t == n * q + r;
    Distribute(q, 1, n);
    Distribute(q + 1, 1, n);
    if r == 0 {
      QuotientBound(t + n - 1, n, q);
      if q > 0 {
        QuotientBound(t + n - 1, n, q - 1);
      }
    } else {
      QuotientBound(t + n - 1, n, q + 1);
      QuotientBound(t + n - 1, n, q);
    }
  }

  lemma EvenPolls(t: nat, n: nat, most: nat)
    requires 0 < n <= t <= n * most
    ensures Polls(Even(t / n, t % n, n), most)
  {
    DivBounds(t, n, 1, most);
    if t % n > 0 {
      assert t == n * (t / n) + t % n;
      if t / n == most {
        assert false;
      }
    }
  }

  lemma QuotientBound(t: nat, n: nat, q: nat)
    requires n > 0
    ensures t / n <= q <==> t < (q + 1) * n
  {
    assert t == n * (t / n) + t % n;
    if t / n <= q {
      assert n * (t / n) <= n * q;
      assert (q + 1) * n == n * q + n;
    } else {
      assert n * (q + 1) <= n * (t / n);
      assert (q + 1) * n == n * (q + 1);
    }
  }

  /** The figures of a run in which `total` operations went out and came back. */
  lemma Figures(total: nat, testBurst: nat, p: Progress, enqs: seq<nat>, deqs: seq<nat>)
    requires Describes(p.enq, enqs) && |enqs| == p.bursts && p.enq.tot == total > 0
    requires Describes(p.deq, deqs) && Polls(deqs, testBurst) && p.deq.tot == total
    ensures p.bursts > 0 && p.enq.min <= p.enq.tot / p.bursts <= p.enq.max
    ensures 0 < |deqs| <= total <= |deqs| * testBurst && Sum(enqs) == Sum(deqs) == total
    ensures total / |deqs| <= total / p.bursts <= (total + |deqs| - 1) / |deqs| ==>
              p.deq.min <= p.deq.tot / p.bursts <= p.deq.max
  {
    assert enqs != [] && deqs != [];
    MinAvgMax(p.enq, enqs);
    SumBounds(deqs, 1, testBurst);
    MeanBetween(deqs, p.deq);
  }

  lemma Distribute(a: nat, b: nat, c: nat)
    ensures (a + b) * c == a * c + b * c && c * (a + b) == c * a + c * b
  {}

  /** The samples of a run, by the account of the device: what it accepted of every burst, and what it
      returned in every poll that returned something. */
  ghost function Takes(calls: seq<Call>): seq<nat> {
    if calls == [] then []
    else
      var c := calls[|calls| - 1];
      Takes(calls[..|calls| - 1]) + if c.Offered? then [c.accepted] else []
  }

  ghost function Comes(calls: seq<Call>): seq<nat> {
    if calls == [] then []
    else
      var c := calls[|calls| - 1];
      Comes(calls[..|calls| - 1]) + if c.Polled? && c.returned > 0 then [c.returned] else []
  }

  /** The clock as it was last read. */
  ghost function LastClock(calls: seq<Call>): nat {
    if calls == [] then 0
    else if calls[|calls| - 1].Clock? then calls[|calls| - 1].time
    else LastClock(calls[..|calls| - 1])
  }

  ghost function Copies(n: nat, t: nat): (s: seq<nat>)
    ensures |s| == n
  {
    seq(n, _ => t)
  }

  /** The time at which the burst of each accepted operation was offered, in the order of the slots. */
  ghost function Starts(calls: seq<Call>): seq<nat> {
    if calls == [] then []
    else
      var c, rest := calls[|calls| - 1], calls[..|calls| - 1];
      Starts(rest) + if c.Offered? then Copies(c.accepted, LastClock(rest)) else []
  }

  lemma SamplesMore(calls: seq<Call>, c: Call)
    ensures Takes(calls + [c]) == Takes(calls) + if c.Offered? then [c.accepted] else []
    ensures Comes(calls + [c]) == Comes(calls) + if c.Polled? && c.returned > 0 then [c.returned] else []
    ensures LastClock(calls + [c]) == if c.Clock? then c.time else LastClock(calls)
    ensures Starts(calls + [c]) == Starts(calls) + if c.Offered? then Copies(c.accepted, LastClock(calls)) else []
  {
    assert (calls + [c])[..|calls|] == calls;
  }

  /** The figures and the start stamps are those of the device's own account. */
  ghost predicate Booked(before: seq<Call>, now: seq<Call>, total: nat, testBurst: nat, enqTotal: nat, deqTotal: nat,
                         enqs: seq<nat>, deqs: seq<nat>, starts: seq<nat>, polls: nat)
  {
    && Logged(before, now, total, testBurst, enqTotal, deqTotal, polls)
    && var calls := now[|before|..];
    && Takes(calls) == enqs && Comes(calls) == deqs && Starts(calls) == starts
  }

  lemma NothingBooked(log: seq<Call>, total: nat, testBurst: nat)
    ensures Booked(log, log, total, testBurst, 0, 0, [], [], [], 0)
  {
    NothingLogged(log, total, testBurst);
  }

  /** A round: the clock is read, a burst offered, the device polled, and the clock read again. */
  lemma RoundBooked(before: seq<Call>, now: seq<Call>, total: nat, testBurst: nat, enqTotal: nat, deqTotal: nat,
                    enqs: seq<nat>, deqs: seq<nat>, starts: seq<nat>, polls: nat,
                    start: nat, n: nat, k: nat, d: nat, end: nat)
    requires Booked(before, now, total, testBurst, enqTotal, deqTotal, enqs, deqs, starts, polls) && enqTotal <= total
    requires n == if testBurst <= total - enqTotal then testBurst else total - enqTotal
    ensures Booked(before, now + [Clock(start), Offered(n, k), Polled(testBurst, d), Clock(end)], total, testBurst,
                   enqTotal + k, deqTotal + d, enqs + [k], if d == 0 then deqs else deqs + [d],
                   starts + Copies(k, start), polls + 1)
  {
    hide Logged, Takes, Comes, Starts, LastClock;
    StartsBefore(before, now, total, testBurst, enqTotal, deqTotal, polls);
    var a := now + [Clock(start)];
    var b := a + [Offered(n, k)];
    var c := b + [Polled(testBurst, d)];
    var calls := now[|before|..];
    assert a[|before|..] == calls + [Clock(start)];
    assert b[|before|..] == a[|before|..] + [Offered(n, k)];
    assert c[|before|..] == b[|before|..] + [Polled(testBurst, d)];
    assert (c + [Clock(end)])[|before|..] == c[|before|..] + [Clock(end)];
    assert now + [Clock(start), Offered(n, k), Polled(testBurst, d), Clock(end)] == c + [Clock(end)];
    ClockLogged(before, now, total, testBurst, enqTotal, deqTotal, polls, start);
    OfferLogged(before, a, total, testBurst, enqTotal, deqTotal, polls, n, k);
    PollLogged(before, b, total, testBurst, enqTotal + k, deqTotal, polls, d);
    ClockLogged(before, c, total, testBurst, enqTotal + k, deqTotal + d, polls + 1, end);
    SamplesMore(calls, Clock(start));
    SamplesMore(a[|before|..], Offered(n, k));
    SamplesMore(b[|before|..], Polled(testBurst, d));
    SamplesMore(c[|before|..], Clock(end));
  }

  lemma StartsBefore(before: seq<Call>, now: seq<Call>, total: nat, testBurst: nat, accepted: nat, returned: nat,
                     polls: nat)
    requires Logged(before, now, total, testBurst, accepted, returned, polls)
    ensures before <= now
  {}

  /** A poll after the last burst */
  lemma PollBooked(before: seq<Call>, now: seq<Call>, total: nat, testBurst: nat, enqTotal: nat, deqTotal: nat,
                   enqs: seq<nat>, deqs: seq<nat>, starts: seq<nat>, polls: nat, d: nat, end: nat)
    requires Booked(before, now, total, testBurst, enqTotal, deqTotal, enqs, deqs, starts, polls)
    ensures Booked(before, now + [Polled(testBurst, d), Clock(end)], total, testBurst, enqTotal, deqTotal + d,
                   enqs, if d == 0 then deqs else deqs + [d], starts, polls + 1)
  {
    hide Logged, Takes, Comes, Starts, LastClock;
    var c := now + [Polled(testBurst, d)];
    StartsBefore(before, now, total, testBurst, enqTotal, deqTotal, polls);
    assert c[|before|..] == now[|before|..] + [Polled(testBurst, d)];
    assert (c + [Clock(end)])[|before|..] == c[|before|..] + [Clock(end)];
    assert now + [Polled(testBurst, d), Clock(end)] == c + [Clock(end)];
    PollLogged(before, now, total, testBurst, enqTotal, deqTotal, polls, d);
    ClockLogged(before, c, total, testBurst, enqTotal, deqTotal + d, polls + 1, end);
    SamplesMore(now[|before|..], Polled(testBurst, d));
    SamplesMore(c[|before|..], Clock(end));
  }

  /** Slots below n belong one to one to the operations accepted so far. The slot of a live
      operation waits for its end stamp, every other one was stamped exactly once. */
  ghost predicate SlotsFor(start: seq<nat>, end: seq<nat>, result: map<Op, nat>, n: nat, clock: nat,
                           owner: seq<Op>, ends: seq<nat>, live: set<Op>)
  {
    && n <= |start| && n <= |end|
    && |owner| == |ends| == n
    && (forall op :: op in live ==> op in result && result[op] < n && owner[result[op]] == op && ends[result[op]] == 0)
    && (forall i :: 0 <= i < n ==> start[i] <= clock && ends[i] <= 1)
    && (forall i :: 0 <= i < n && ends[i] == 0 ==> owner[i] in live && result[owner[i]] == i)
    && (forall i :: 0 <= i < n && ends[i] == 1 ==> start[i] <= end[i] <= clock)
    && clock <= NO_MIN
  }

  lemma SlotsLater(start: seq<nat>, end: seq<nat>, result: map<Op, nat>, n: nat, clock: nat,
                   owner: seq<Op>, ends: seq<nat>, live: set<Op>, later: nat)
    requires SlotsFor(start, end, result, n, clock, owner, ends, live) && clock <= later <= NO_MIN
    ensures SlotsFor(start, end, result, n, later, owner, ends, live)
  {}

  class Runner {
    const ops: array<Op>
    const processed: array<Op>
    const pool: Mempool
    const dev: Cryptodev
    // ctx->res[].tsc_start and ctx->res[].tsc_end
    const tscStart: array<nat>
    const tscEnd: array<nat>
    // the result pointer in the private data of each operation, as a slot number
    var result: map<Op, nat>
    var tscIdx: nat
    // the time stamp counter
    var clock: nat
    ghost var populated: set<Op>
    // the operation a slot was given to, and how often its end was stamped
    ghost var owner: seq<Op>
    ghost var ends: seq<nat>

    constructor (maxBurst: nat, total: nat, pool: Mempool, dev: Cryptodev)
      ensures this.pool == pool && this.dev == dev
      ensures Separate() && fresh(ops) && fresh(processed) && fresh(tscStart) && fresh(tscEnd)
      ensures ops.Length == processed.Length == maxBurst
      ensures tscStart.Length == tscEnd.Length == total
      ensures tscIdx == clock == 0 && owner == ends == []
    {
      this.pool := pool;
      this.dev := dev;
      ops := new Op[maxBurst];
      processed := new Op[maxBurst];
      tscStart := new nat[total];
      tscEnd := new nat[total];
      result, tscIdx, clock := map[], 0, 0;
      populated, owner, ends := {}, [], [];
    }

    ghost predicate Separate() {
      && ops != processed && tscStart != tscEnd
      && ops != tscStart && ops != tscEnd && processed != tscStart && processed != tscEnd
    }

    ghost predicate Slots(live: set<Op>)
      reads this`result, this`tscIdx, this`clock, this`owner, this`ends, tscStart, tscEnd
    {
      SlotsFor(tscStart[..], tscEnd[..], result, tscIdx, clock, owner, ends, live)
    }

    method Rdtsc() returns (t: nat)
      requires clock <= NO_MIN
      modifies this`clock, dev`log
      ensures old(clock) <= t == clock <= NO_MIN && dev.log == old(dev.log) + [Clock(t)]
    {
      t :| clock <= t <= NO_MIN;
      clock := t;
      dev.log := dev.log + [Clock(t)];
    }

    /** Gives the next slot to an accepted operation. */
    method AssignSlot(ghost live: set<Op>, op: Op, start: nat)
      requires Separate() && Slots(live) && op !in live
      requires tscIdx < tscStart.Length && tscIdx < tscEnd.Length && start <= clock
      modifies this`result, this`tscIdx, this`owner, this`ends, tscStart
      ensures Slots(live + {op})
      ensures tscIdx == old(tscIdx) + 1 && result == old(result)[op := old(tscIdx)]
      ensures tscStart[old(tscIdx)] == start
      ensures forall i :: 0 <= i < tscStart.Length && i != old(tscIdx) ==> tscStart[i] == old(tscStart[i])
      ensures owner == old(owner) + [op] && ends == old(ends) + [0]
    {
      tscStart[tscIdx] := start;
      result := result[op := tscIdx];
      owner, ends := owner + [op], ends + [0];
      tscIdx := tscIdx + 1;
    }

    method StoreTimestamp(ghost live: set<Op>, op: Op, timestamp: nat)
      requires Separate() && Slots(live) && op in live && timestamp == clock
      modifies this`ends, tscEnd
      ensures Slots(live - {op})
      ensures ends == old(ends)[result[op] := 1]
      ensures tscEnd[result[op]] == timestamp
      ensures forall i :: 0 <= i < tscEnd.Length && i != result[op] ==> tscEnd[i] == old(tscEnd[i])
    {
      tscEnd[result[op]] := timestamp;
      ends := ends[result[op] := ends[result[op]] + 1];
    }

    method AssignSlots(ghost live: set<Op>, n: nat, start: nat)
      requires Separate() && Slots(live) && n <= ops.Length && start <= clock
      requires Distinct(ops[..n]) && Elems(ops[..n]) !! live
      requires tscIdx + n <= tscStart.Length && tscIdx + n <= tscEnd.Length
      modifies this`result, this`tscIdx, this`owner, this`ends, tscStart
      ensures Slots(live + Elems(ops[..n]))
      ensures tscIdx == old(tscIdx) + n
      ensures owner == old(owner) + ops[..n]
      ensures forall i :: old(tscIdx) <= i < tscIdx ==> tscStart[i] == start
      ensures forall i :: 0 <= i < old(tscIdx) ==> tscStart[i] == old(tscStart[i])
    {
      assert live + Elems(ops[..0]) == live;
      for i := 0 to n
        invariant Slots(live + Elems(ops[..i]))
        invariant tscIdx == old(tscIdx) + i
        invariant owner == old(owner) + ops[..i]
        invariant forall j :: old(tscIdx) <= j < tscIdx ==> tscStart[j] == start
        invariant forall j :: 0 <= j < old(tscIdx) ==> tscStart[j] == old(tscStart[j])
      {
        assert ops[..i + 1] == ops[..i] + [ops[i]];
        assert Elems(ops[..i + 1]) == Elems(ops[..i]) + {ops[i]};
        assert ops[i] == ops[..n][i] && ops[i] in Elems(ops[..n]);
        assert ops[i] !in Elems(ops[..i]) by {
          assert forall j | 0 <= j < i :: ops[..i][j] == ops[..n][j];
        }
        AssignSlot(live + Elems(ops[..i]), ops[i], start);
        assert live + Elems(ops[..i]) + {ops[i]} == live + Elems(ops[..i + 1]);
      }
    }

    /** The slots of the operations a poll returned have this end stamp. */
    ghost predicate Stamped(n: nat, end: nat)
      reads this`result, processed, tscEnd
    {
      && n <= processed.Length
      && forall j :: 0 <= j < n ==>
           && processed[j] in result && result[processed[j]] < tscEnd.Length
           && tscEnd[result[processed[j]]] == end
    }

    method StampAll(ghost live: set<Op>, n: nat, timestamp: nat)
      requires Separate() && Slots(live) && n <= processed.Length && timestamp == clock
      requires Distinct(processed[..n]) && Elems(processed[..n]) <= live
      modifies this`ends, tscEnd
      ensures Slots(live - Elems(processed[..n])) && Stamped(n, timestamp)
    {
      assert live - Elems(processed[..0]) == live;
      for i := 0 to n
        invariant Slots(live - Elems(processed[..i]))
        invariant Stamped(i, timestamp)
      {
        assert processed[..i + 1] == processed[..i] + [processed[i]];
        assert Elems(processed[..i + 1]) == Elems(processed[..i]) + {processed[i]};
        assert processed[i] == processed[..n][i] && processed[i] in Elems(processed[..n]);
        assert processed[i] !in Elems(processed[..i]) by {
          assert forall j | 0 <= j < i :: processed[..i][j] == processed[..n][j];
        }
        StoreTimestamp(live - Elems(processed[..i]), processed[i], timestamp);
        assert live - Elems(processed[..i]) - {processed[i]} == live - Elems(processed[..i + 1]);
      }
    }

    /** The loop invariant: nothing is held back between rounds, and the running figures describe
        the answers of the device so far. */
    ghost predicate Inv(all: set<Op>, total: nat, testBurst: nat, p: Progress, enqs: seq<nat>, deqs: seq<nat>,
                        before: seq<Call>, polls: nat)
      reads this, tscStart, tscEnd, pool, dev
    {
      Shared(all, pool.free, dev.inflight) && Core(total, testBurst, p, enqs, deqs, before, polls)
    }

    /** The same but for the operations in the pool. */
    ghost predicate Core(total: nat, testBurst: nat, p: Progress, enqs: seq<nat>, deqs: seq<nat>, before: seq<Call>,
                         polls: nat)
      reads this`result, this`tscIdx, this`clock, this`owner, this`ends, tscStart, tscEnd, dev
    {
      && Separate()
      && Slots(dev.inflight) && clock <= NO_MIN
      && tscIdx == p.enq.tot <= total <= tscStart.Length && total <= tscEnd.Length
      && total <= NO_MIN
      && p.enq.tot == p.deq.tot + |dev.inflight|
      && Describes(p.enq, enqs) && |enqs| == p.bursts
      && Describes(p.deq, deqs)
      && Polls(deqs, testBurst) && Within(enqs, testBurst)
      && Booked(before, dev.log, total, testBurst, p.enq.tot, p.deq.tot, enqs, deqs, tscStart[..tscIdx], polls)
    }

    /** Takes a fresh burst from the pool and fills it. */
    method TakeBurst(burst: nat) returns (ok: bool)
      requires burst <= ops.Length
      modifies this`populated, ops, pool
      ensures !ok ==> pool.free == old(pool.free)
      ensures pool.refused == old(pool.refused) + if ok then 0 else 1
      ensures ok ==> Distinct(ops[..burst]) && Elems(ops[..burst]) <= old(pool.free)
      ensures ok ==> Elems(ops[..burst]) <= populated
      ensures ok ==> pool.free == old(pool.free) - Elems(ops[..burst])
    {
      ok := pool.GetBulk(ops, 0, burst);
      if ok {
        assert ops[0..0 + burst] == ops[..burst];
        populated := populated - Elems(ops[..burst]) + Elems(ops[..burst]);
      }
    }

    /** Offers the burst: the device takes a prefix of it. */
    method OfferBurst(ghost all: set<Op>, burst: nat, ghost offered: seq<Op>) returns (enqd: nat)
      requires burst <= ops.Length && offered == ops[..burst] && Distinct(offered) && Elems(offered) <= populated
      requires Shared(all, pool.free + Elems(offered), dev.inflight) && pool.free !! Elems(offered)
      modifies dev
      ensures enqd <= burst && dev.inflight == old(dev.inflight) + Elems(offered[..enqd])
      ensures Distinct(offered[..enqd]) && Elems(offered[..enqd]) !! old(dev.inflight)
      ensures Distinct(offered[enqd..]) && pool.free !! Elems(offered[enqd..])
      ensures Shared(all, pool.free + Elems(offered[enqd..]), dev.inflight)
      ensures |dev.inflight| == |old(dev.inflight)| + enqd
      ensures enqd == burst ==> pool.free + Elems(offered[enqd..]) == pool.free
      ensures dev.log == old(dev.log) + [Offered(burst, enqd)]
    {
      hide Shared, Distinct, Elems;
      ghost var free, inflight := pool.free, dev.inflight;
      assert ops[0..0 + burst] == offered;
      EnqueueFits(all, free, inflight, offered);
      enqd := dev.EnqueueBurst(ops, 0, burst, populated);
      EnqueueKeeps(all, free, inflight, offered, enqd);
      assert ops[0..0 + enqd] == offered[..enqd];
    }

    /** Offers the burst, polls the device, reads the clock on both sides and frees what was
        not accepted. */
    method Exchange(ghost all: set<Op>, testBurst: nat, burst: nat, ghost offered: seq<Op>)
      returns (enqd: nat, deqd: nat, start: nat, end: nat)
      requires Separate() && burst <= ops.Length && testBurst <= processed.Length
      requires offered == ops[..burst] && Distinct(offered) && Elems(offered) <= populated && clock <= NO_MIN
      requires Shared(all, pool.free + Elems(offered), dev.inflight) && pool.free !! Elems(offered)
      modifies this`clock, processed, pool, dev
      ensures enqd <= burst && deqd <= testBurst
      ensures old(clock) <= start <= end == clock <= NO_MIN
      ensures ops[..enqd] == offered[..enqd] && Distinct(ops[..enqd]) && Elems(ops[..enqd]) !! old(dev.inflight)
      ensures Distinct(processed[..deqd]) && Elems(processed[..deqd]) <= old(dev.inflight) + Elems(ops[..enqd])
      ensures dev.inflight == old(dev.inflight) + Elems(ops[..enqd]) - Elems(processed[..deqd])
      ensures Shared(all, pool.free, old(dev.inflight) + Elems(ops[..enqd]))
      ensures |old(dev.inflight) + Elems(ops[..enqd])| == |old(dev.inflight)| + enqd
      ensures dev.log == old(dev.log) + [Clock(start), Offered(burst, enqd), Polled(testBurst, deqd), Clock(end)]
      ensures pool.refused == old(pool.refused)
    {
      hide Shared, Distinct, Elems;
      start := Rdtsc();
      enqd := OfferBurst(all, burst, offered);
      assert ops[..enqd] == offered[..enqd];
      deqd := dev.DequeueBurst(processed, 0, testBurst);
      assert processed[0..0 + deqd] == processed[..deqd];
      end := Rdtsc();
      if enqd != burst {
        assert ops[enqd..enqd + (burst - enqd)] == offered[enqd..];
        pool.PutBulk(ops, enqd, burst - enqd);
      }
    }

    /** Stamps and frees the operations of a poll that returned some. */
    method Collect(ghost all: set<Op>, ghost live: set<Op>, deqd: nat, end: nat, deq: Stats)
      returns (deq': Stats)
      requires Separate() && Slots(live) && deqd <= processed.Length && end == clock
      requires Distinct(processed[..deqd]) && Elems(processed[..deqd]) <= live
      requires dev.inflight == live - Elems(processed[..deqd])
      requires Shared(all, pool.free, live)
      modifies this`ends, tscEnd, pool
      ensures Slots(dev.inflight) && Shared(all, pool.free, dev.inflight)
      ensures deq' == if deqd == 0 then deq else deq.Add(deqd)
      ensures pool.refused == old(pool.refused) && Stamped(deqd, end)
      ensures |live| == |dev.inflight| + deqd
    {
      hide SlotsFor, Shared, Distinct, Elems;
      deq' := deq;
      ghost var back := processed[..deqd];
      assert processed[0..0 + deqd] == back;
      Returned(all, pool.free, live, back);
      if deqd != 0 {
        StampAll(live, deqd, end);
        pool.PutBulk(processed, 0, deqd);
        deq' := deq.Add(deqd);
      }
    }

    /** Books what came back: time stamps, the pool and the dequeue figures. */
    method BookPoll(ghost all: set<Op>, ghost live: set<Op>, deqd: nat, end: nat, deq: Stats,
                    ghost testBurst: nat, ghost deqs: seq<nat>)
      returns (deq': Stats, ghost deqs': seq<nat>)
      requires Separate() && Slots(live) && deqd <= processed.Length && end == clock
      requires Distinct(processed[..deqd]) && Elems(processed[..deqd]) <= live
      requires dev.inflight == live - Elems(processed[..deqd])
      requires Shared(all, pool.free, live)
      requires Describes(deq, deqs) && Polls(deqs, testBurst) && deqd <= testBurst <= NO_MIN
      modifies this`ends, tscEnd, pool
      ensures Slots(dev.inflight) && Shared(all, pool.free, dev.inflight)
      ensures |live| == |dev.inflight| + deqd
      ensures Describes(deq', deqs') && Polls(deqs', testBurst) && deq'.tot == deq.tot + deqd
      ensures deqs' == if deqd == 0 then deqs else deqs + [deqd]
      ensures pool.refused == old(pool.refused) && Stamped(deqd, end)
    {
      hide SlotsFor, Distinct, Describes, Shared, Elems, Polls;
      deq' := Collect(all, live, deqd, end, deq);
      deqs' := deqs;
      if deqd != 0 {
        AddDescribes(deq, deqs, deqd);
        PollsAdd(deqs, deqd, testBurst);
        deqs' := deqs + [deqd];
      }
    }

    /** Books an exchange: slots for what was accepted, stamps for what came back. */
    method Settle(ghost all: set<Op>, ghost live: set<Op>, enqd: nat, deqd: nat, start: nat, end: nat, p: Progress,
                  ghost testBurst: nat, ghost enqs: seq<nat>, ghost deqs: seq<nat>)
      returns (p': Progress, ghost enqs': seq<nat>, ghost deqs': seq<nat>)
      requires Separate() && Slots(live) && enqd <= ops.Length && deqd <= processed.Length && start <= end == clock
      requires Distinct(ops[..enqd]) && Elems(ops[..enqd]) !! live
      requires tscIdx + enqd <= tscStart.Length && tscIdx + enqd <= tscEnd.Length
      requires Distinct(processed[..deqd]) && Elems(processed[..deqd]) <= live + Elems(ops[..enqd])
      requires dev.inflight == live + Elems(ops[..enqd]) - Elems(processed[..deqd])
      requires Shared(all, pool.free, live + Elems(ops[..enqd]))
      requires Describes(p.enq, enqs) && Describes(p.deq, deqs) && enqd <= testBurst <= NO_MIN && deqd <= testBurst
      requires Polls(deqs, testBurst) && Within(enqs, testBurst)
      modifies this`result, this`tscIdx, this`owner, this`ends, tscStart, tscEnd, pool
      ensures Slots(dev.inflight) && Shared(all, pool.free, dev.inflight)
      ensures tscIdx == old(tscIdx) + enqd
      ensures |live + Elems(ops[..enqd])| == |dev.inflight| + deqd
      ensures Describes(p'.enq, enqs') && Describes(p'.deq, deqs')
      ensures Polls(deqs', testBurst) && Within(enqs', testBurst)
      ensures enqs' == enqs + [enqd] && deqs' == if deqd == 0 then deqs else deqs + [deqd]
      ensures p'.enq.tot == p.enq.tot + enqd && p'.deq.tot == p.deq.tot + deqd && p'.bursts == p.bursts + 1
      ensures tscStart[..tscIdx] == old(tscStart[..tscIdx]) + Copies(enqd, start)
      ensures pool.refused == old(pool.refused) && Stamped(deqd, end)
    {
      hide SlotsFor, Distinct, Describes, Shared, Elems, Polls, Within;
      ghost var starts := tscStart[..tscIdx];
      AssignSlots(live, enqd, start);
      assert tscStart[..tscIdx] == starts + Copies(enqd, start);
      var deq;
      deq, deqs' := BookPoll(all, live + Elems(ops[..enqd]), deqd, end, p.deq, testBurst, deqs);
      AddDescribes(p.enq, enqs, enqd);
      WithinAdd(enqs, enqd, testBurst);
      enqs' := enqs + [enqd];
      p' := Progress(p.enq.Add(enqd), deq, p.bursts + 1);
    }

    /** A round once the burst has been taken */
    method OfferAndPoll(ghost all: set<Op>, total: nat, testBurst: nat, burst: nat, ghost offered: seq<Op>, p: Progress,
                        ghost enqs: seq<nat>, ghost deqs: seq<nat>, ghost before: seq<Call>, ghost polls: nat)
      returns (p': Progress, ghost enqs': seq<nat>, ghost deqs': seq<nat>, ghost deqd: nat, ghost end: nat)
      requires Core(total, testBurst, p, enqs, deqs, before, polls) && p.enq.tot < total
      requires burst <= testBurst <= ops.Length && testBurst <= processed.Length && testBurst <= 0xFFFF
      requires burst == if testBurst <= total - p.enq.tot then testBurst else total - p.enq.tot
      requires offered == ops[..burst] && Distinct(offered) && Elems(offered) <= populated
      requires Shared(all, pool.free + Elems(offered), dev.inflight) && pool.free !! Elems(offered)
      modifies this`clock, this`result, this`tscIdx, this`owner, this`ends, processed, tscStart, tscEnd, pool, dev
      ensures Inv(all, total, testBurst, p', enqs', deqs', before, polls + 1)
      ensures pool.refused == old(pool.refused)
      ensures Stamped(deqd, end) && |dev.log| == |old(dev.log)| + 4
      ensures dev.log[|old(dev.log)| + 2..] == [Polled(testBurst, deqd), Clock(end)]
    {
      hide SlotsFor, Distinct, Describes, Shared, Elems, Polls, Within, Booked, Stamped, Copies;
      ghost var inflight, time := dev.inflight, clock;
      ghost var log, starts := dev.log, tscStart[..tscIdx];
      var enqd, back, start, now := Exchange(all, testBurst, burst, offered);
      deqd, end := back, now;
      SlotsLater(tscStart[..], tscEnd[..], result, tscIdx, time, owner, ends, inflight, clock);
      p', enqs', deqs' := Settle(all, inflight, enqd, back, start, now, p, testBurst, enqs, deqs);
      RoundBooked(before, log, total, testBurst, p.enq.tot, p.deq.tot, enqs, deqs, starts, polls,
                  start, burst, enqd, back, now);
    }

    lemma CoreSeparate(total: nat, testBurst: nat, p: Progress, enqs: seq<nat>, deqs: seq<nat>, before: seq<Call>,
                       polls: nat)
      requires Core(total, testBurst, p, enqs, deqs, before, polls)
      ensures Separate() && clock <= NO_MIN
    {}

    /** One iteration of the enqueue loop. */
    method Round(ghost all: set<Op>, total: nat, testBurst: nat, p: Progress,
                 ghost enqs: seq<nat>, ghost deqs: seq<nat>, ghost before: seq<Call>, ghost polls: nat)
      returns (ok: bool, p': Progress, ghost enqs': seq<nat>, ghost deqs': seq<nat>, ghost deqd: nat, ghost end: nat)
      requires Inv(all, total, testBurst, p, enqs, deqs, before, polls) && p.enq.tot < total
      requires testBurst <= ops.Length && testBurst <= processed.Length && testBurst <= 0xFFFF
      modifies this`populated, this`clock, this`result, this`tscIdx, this`owner, this`ends
      modifies ops, processed, tscStart, tscEnd, pool, dev
      ensures Inv(all, total, testBurst, p', enqs', deqs', before, if ok then polls + 1 else polls)
      ensures !ok ==> p' == p
      ensures pool.refused == old(pool.refused) + if ok then 0 else 1
      // what came back has the time read after the poll
      ensures ok ==> Stamped(deqd, end) && |dev.log| == |old(dev.log)| + 4
      ensures ok ==> dev.log[|old(dev.log)| + 2..] == [Polled(testBurst, deqd), Clock(end)]
    {
      hide Distinct, Shared, Elems, Core, Stamped;
      CoreSeparate(total, testBurst, p, enqs, deqs, before, polls);
      p', enqs', deqs', deqd, end := p, enqs, deqs, 0, 0;
      var burst := Throughput.BurstSize(testBurst, total, p.enq.tot);
      ghost var free, inflight := pool.free, dev.inflight;
      ok := TakeBurst(burst);
      if !ok {
        return;
      }
      ghost var offered := ops[..burst];
      Taken(all, free, inflight, Elems(offered));
      p', enqs', deqs', deqd, end :=
        OfferAndPoll(all, total, testBurst, burst, offered, p, enqs, deqs, before, polls);
    }

    /** Dequeues what is still in the device, stamping it on the way. */
    method Drain(ghost all: set<Op>, total: nat, testBurst: nat, p: Progress, polls: nat,
                 ghost enqs: seq<nat>, ghost deqs: seq<nat>, ghost before: seq<Call>, ghost used: nat)
      returns (ok: bool, p': Progress, ghost deqs': seq<nat>, left: nat)
      requires Inv(all, total, testBurst, p, enqs, deqs, before, used) && p.enq.tot == total
      requires testBurst <= processed.Length && testBurst <= 0xFFFF
      modifies this`clock, this`ends, processed, tscEnd, pool, dev
      ensures left <= polls && (!ok ==> left == 0) && pool.refused == old(pool.refused)
      ensures Inv(all, total, testBurst, p', enqs, deqs', before, used + polls - left)
      ensures p'.enq == p.enq && p'.bursts == p.bursts
      ensures ok ==> dev.inflight == {} && p'.deq.tot == total
    {
      hide Core, Shared, Stamped;
      p', deqs', left := p, deqs, polls;
      while p'.deq.tot < total
        invariant left <= polls && pool.refused == old(pool.refused)
        invariant Inv(all, total, testBurst, p', enqs, deqs', before, used + polls - left)
        invariant p'.enq == p.enq && p'.bursts == p.bursts
        decreases left
      {
        if left == 0 {
          return false, p', deqs', left;
        }
        ghost var deqd, end;
        p', deqs', deqd, end := DrainOnce(all, total, testBurst, p', enqs, deqs', before, used + polls - left);
        left := left - 1;
      }
      AllBack(all, total, testBurst, p', enqs, deqs', before, used + polls - left);
      ok := true;
    }

    lemma AllBack(all: set<Op>, total: nat, testBurst: nat, p: Progress, enqs: seq<nat>, deqs: seq<nat>,
                  before: seq<Call>, polls: nat)
      requires Inv(all, total, testBurst, p, enqs, deqs, before, polls) && p.enq.tot == total <= p.deq.tot
      ensures dev.inflight == {} && p.deq.tot == total && pool.free == all
      ensures Slots({}) && tscIdx == total
      ensures forall i :: 0 <= i < total ==> ends[i] == 1 && tscStart[i] <= tscEnd[i]
      ensures total > 0 ==>
        && p.bursts > 0 && p.enq.min <= p.enq.tot / p.bursts <= p.enq.max
        && 0 < |deqs| <= total <= |deqs| * testBurst && Sum(enqs) == Sum(deqs) == total
        && (total / |deqs| <= total / p.bursts <= (total + |deqs| - 1) / |deqs| ==>
              p.deq.min <= p.deq.tot / p.bursts <= p.deq.max)
    {
      hide Describes, Booked, Sum;
      if total > 0 {
        Figures(total, testBurst, p, enqs, deqs);
      }
    }

    method DrainOnce(ghost all: set<Op>, total: nat, testBurst: nat, p: Progress,
                     ghost enqs: seq<nat>, ghost deqs: seq<nat>, ghost before: seq<Call>, ghost polls: nat)
      returns (p': Progress, ghost deqs': seq<nat>, ghost deqd: nat, ghost end: nat)
      requires Inv(all, total, testBurst, p, enqs, deqs, before, polls)
      requires testBurst <= processed.Length && testBurst <= 0xFFFF
      modifies this`clock, this`ends, processed, tscEnd, pool, dev
      ensures Inv(all, total, testBurst, p', enqs, deqs', before, polls + 1)
      ensures p'.enq == p.enq && p'.bursts == p.bursts && pool.refused == old(pool.refused)
      ensures Stamped(deqd, end) && dev.log == old(dev.log) + [Polled(testBurst, deqd), Clock(end)]
    {
      hide SlotsFor, Distinct, Describes, Shared, Elems, Polls, Within, Booked, Stamped, Copies;
      ghost var live, time := dev.inflight, clock;
      ghost var log := dev.log;
      var back := dev.DequeueBurst(processed, 0, testBurst);
      assert processed[0..0 + back] == processed[..back];
      var now := Rdtsc();
      deqd, end := back, now;
      SlotsLater(tscStart[..], tscEnd[..], result, tscIdx, time, owner, ends, live, clock);
      var deq;
      deq, deqs' := BookPoll(all, live, back, now, p.deq, testBurst, deqs);
      p' := p.(deq := deq);
      PollBooked(before, log, total, testBurst, p.enq.tot, p.deq.tot, enqs, deqs, tscStart[..tscIdx], polls, back, now);
      assert dev.log == log + [Polled(testBurst, back), Clock(now)];
    }

    /** The loop over the result slots after the run. */
    method Summarise() returns (cycles: Stats)
      requires Slots({})
      ensures Describes(cycles, Cycles(tscStart[..], tscEnd[..], tscIdx))
    {
      hide Describes;
      ghost var all := Cycles(tscStart[..], tscEnd[..], tscIdx);
      cycles := NO_STATS;
      NoSamples();
      var i := 0;
      assert all[..0] == [];
      while i < tscIdx
        invariant 0 <= i <= tscIdx
        invariant Describes(cycles, all[..i])
      {
        assert ends[i] == 1;
        var v := tscEnd[i] - tscStart[i];
        AddDescribes(cycles, all[..i], v);
        assert all[..i + 1] == all[..i] + [v];
        cycles := cycles.Add(v);
        i := i + 1;
      }
      assert all[..i] == all;
    }

    /** The enqueue loop. */
    method EnqueueAll(ghost all: set<Op>, total: nat, testBurst: nat, polls: nat)
      returns (outcome: Outcome, p: Progress, left: nat, ghost enqs: seq<nat>, ghost deqs: seq<nat>)
      requires Separate() && testBurst <= ops.Length && testBurst <= processed.Length && testBurst <= 0xFFFF
      requires total <= tscStart.Length && total <= tscEnd.Length && total <= NO_MIN
      requires pool.free == all && dev.inflight == {} && clock <= NO_MIN
      modifies this, ops, processed, tscStart, tscEnd, pool, dev
      ensures left <= polls && (outcome == OutOfPolls ==> left == 0) && (outcome == PoolExhausted ==> left < polls)
      ensures Inv(all, total, testBurst, p, enqs, deqs, old(dev.log),
                  polls - left - if outcome == PoolExhausted then 1 else 0)
      ensures outcome == Completed <==> p.enq.tot == total
      ensures pool.refused == old(pool.refused) + if outcome == PoolExhausted then 1 else 0
    {
      hide Describes, Booked, Shared;
      assert Shared(all, all, {}) by {
        AllFree(all);
      }
      NothingBooked(dev.log, total, testBurst);
      tscIdx, owner, ends := 0, [], [];
      p, enqs, deqs := Progress(NO_STATS, NO_STATS, 0), [], [];
      NoSamples();
      NoAnswers(testBurst);
      left := polls;
      while p.enq.tot < total
        invariant left <= polls && pool.refused == old(pool.refused)
        invariant Inv(all, total, testBurst, p, enqs, deqs, old(dev.log), polls - left)
        decreases left
      {
        if left == 0 {
          outcome := OutOfPolls;
          return;
        }
        left := left - 1;
        var ok;
        ghost var deqd, end;
        ok, p, enqs, deqs, deqd, end :=
          Round(all, total, testBurst, p, enqs, deqs, old(dev.log), polls - (left + 1));
        if !ok {
          outcome := PoolExhausted;
          return;
        }
      }
      outcome := Completed;
    }

    /** One burst size of the runner, up to the figures it prints. */
    method RunBurstSize(ghost all: set<Op>, total: nat, testBurst: nat, polls: nat)
      returns (outcome: Outcome, p: Progress, cycles: Stats, left: nat, ghost enqs: seq<nat>, ghost deqs: seq<nat>)
      requires Separate() && testBurst <= ops.Length && testBurst <= processed.Length && testBurst <= 0xFFFF
      requires 0 < total <= tscStart.Length && total <= tscEnd.Length && total <= NO_MIN
      requires pool.free == all && dev.inflight == {} && clock <= NO_MIN
      modifies this, ops, processed, tscStart, tscEnd, pool, dev
      // however it ends, the figures and the start stamps are those of the device's own account
      ensures left <= polls && (outcome == OutOfPolls ==> left == 0) && (outcome == PoolExhausted ==> left < polls)
      ensures Inv(all, total, testBurst, p, enqs, deqs, old(dev.log),
                  polls - left - if outcome == PoolExhausted then 1 else 0)
      ensures pool.refused == old(pool.refused) + if outcome == PoolExhausted then 1 else 0
      ensures outcome == Completed ==> p.enq.tot == p.deq.tot == total
      // every slot was used, started once and ended once, and nothing stays with the device
      ensures outcome == Completed ==> tscIdx == total && dev.inflight == {} && pool.free == all
      ensures outcome == Completed ==>
        forall i :: 0 <= i < total ==> ends[i] == 1 && tscStart[i] <= tscEnd[i]
      ensures outcome == Completed ==> p.bursts > 0 && p.enq.min <= p.enq.tot / p.bursts <= p.enq.max
      // the dequeue figures only when their mean is near enough to that over the polls
      ensures outcome == Completed ==>
        && 0 < |deqs| <= total <= |deqs| * testBurst && Sum(enqs) == Sum(deqs) == total
        && (total / |deqs| <= total / p.bursts <= (total + |deqs| - 1) / |deqs| ==>
              p.deq.min <= p.deq.tot / p.bursts <= p.deq.max)
      ensures outcome == Completed ==>
        && tscIdx > 0 && Describes(cycles, Cycles(tscStart[..], tscEnd[..], tscIdx))
        && cycles.min <= cycles.tot / tscIdx <= cycles.max
    {
      hide Sum, Core, Describes, Shared;
      cycles := NO_STATS;
      outcome, p, left, enqs, deqs := EnqueueAll(all, total, testBurst, polls);
      if outcome != Completed {
        return;
      }
      var done;
      done, p, deqs, left := Drain(all, total, testBurst, p, left, enqs, deqs, old(dev.log), polls - left);
      if !done {
        outcome := OutOfPolls;
        return;
      }
      AllBack(all, total, testBurst, p, enqs, deqs, old(dev.log), polls - left);
      cycles := Summarise();
      MinAvgMax(cycles, Cycles(tscStart[..], tscEnd[..], tscIdx));
    }

    /** The dequeue mean of a run of one burst is its total, which exceeds every poll as soon as
        the operations come back in more than one. */
    lemma DequeueMeanExceedsMax(all: set<Op>, total: nat, testBurst: nat, p: Progress, enqs: seq<nat>, deqs: seq<nat>,
                                before: seq<Call>, polls: nat)
      requires Inv(all, total, testBurst, p, enqs, deqs, before, polls) && p.enq.tot == p.deq.tot == total
      requires p.bursts == 1 && |deqs| > 1
      ensures p.deq.tot / p.bursts > p.deq.max
    {
      SumStep(deqs, |deqs| - 1);
      assert deqs[..|deqs|] == deqs;
      var m :| 0 <= m < |deqs| && deqs[m] == p.deq.max;
      if m == |deqs| - 1 {
        assert deqs[0] in deqs;
        SumMonotone(deqs, 1, |deqs| - 1);
        SumStep(deqs, 0);
      } else {
        SumMonotone(deqs, m + 1, |deqs| - 1);
        SumStep(deqs, m);
        assert deqs[|deqs| - 1] in deqs;
      }
    }

    lemma TwoOps(a: Op, b: Op)
      requires a != b
      ensures Distinct([a, b]) && Distinct([a]) && Distinct([b]) && Shared({a, b}, {}, {a, b})
      ensures Elems([a, b]) == {a, b} && Elems([a]) == {a} && Elems([b]) == {b}
    {}

    lemma NoSlots(start: seq<nat>, end: seq<nat>, result: map<Op, nat>)
      ensures SlotsFor(start, end, result, 0, 0, [], [], {})
    {}

    /** The runner books one burst of two operations that come back one by one. */
    method BookTwoPolls(a: Op, b: Op) returns (p: Progress, ghost enqs: seq<nat>, ghost deqs: seq<nat>)
      requires Separate() && a != b && ops.Length == processed.Length == tscStart.Length == tscEnd.Length == 2
      requires pool.free == {a, b} && dev.inflight == {} && tscIdx == clock == 0 && owner == ends == []
      modifies this, ops, processed, tscStart, tscEnd, pool, dev
      ensures Inv({a, b}, 2, 2, p, enqs, deqs, old(dev.log), 2) && p.enq.tot == p.deq.tot == 2 && dev.inflight == {}
      ensures p.bursts == 1 && deqs == [1, 1] && p.deq.tot / p.bursts > p.deq.max
    {
      hide Describes, SlotsFor, Polls, Within, Shared, Distinct, Elems, Sum, Booked, Stamped;
      ghost var all, log := {a, b}, dev.log;
      NothingBooked(log, 2, 2);
      NoSamples();
      NoAnswers(2);
      TwoOps(a, b);
      ops[0], ops[1], processed[0] := a, b, a;
      pool.free, dev.inflight := {}, {b};
      assert ops[..2] == [a, b] && processed[..1] == [a];
      NoSlots(tscStart[..], tscEnd[..], result);
      p, enqs, deqs := Settle(all, {}, 2, 1, 0, 0, Progress(NO_STATS, NO_STATS, 0), 2, [], []);
      RoundBooked(log, log, 2, 2, 0, 0, [], [], [], 0, 0, 2, 2, 1, 0);
      dev.log := log + [Clock(0), Offered(2, 2), Polled(2, 1), Clock(0)];
      ghost var middle, one := dev.log, deqs;
      processed[0] := b;
      dev.inflight := {};
      assert processed[..1] == [b];
      var deq;
      deq, deqs := BookPoll(all, {b}, 1, 0, p.deq, 2, deqs);
      PollBooked(log, middle, 2, 2, 2, 1, enqs, one, tscStart[..tscIdx], 1, 1, 0);
      dev.log := middle + [Polled(2, 1), Clock(0)];
      p := p.(deq := deq);
      DequeueMeanExceedsMax(all, 2, 2, p, enqs, deqs, log, 2);
    }
  }
}
