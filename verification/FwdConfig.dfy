/** Forwarding set-up: which core polls which receive queue and feeds which transmit queue. Queues
    are not thread safe, so no queue may be reached from two cores.
  */
module FwdConfig {
  import opened Sums

  datatype Topology = Paired | Chained | Loop

  datatype Stream = Stream(rxPort: nat, rxQueue: nat, txPort: nat, txQueue: nat)

  // ----- streams to cores -----

  /** Consecutive ranges starting at 0: range i begins where range i - 1 ended. */
  ghost predicate Consecutive(idx: seq<nat>, nb: seq<nat>) {
    && |idx| == |nb|
    && forall i :: 0 <= i < |idx| ==> idx[i] == Sum(nb[..i])
  }

  ghost predicate Owns(idx: seq<nat>, nb: seq<nat>, lcore: nat, stream: nat) {
    lcore < |idx| && lcore < |nb| && idx[lcore] <= stream < idx[lcore] + nb[lcore]
  }

  /** A stream has at most one owner. */
  lemma {:induction false} OneOwner(idx: seq<nat>, nb: seq<nat>, a: nat, b: nat, stream: nat)
    requires Consecutive(idx, nb) && Owns(idx, nb, a, stream) && Owns(idx, nb, b, stream)
    ensures a == b
  {
    SumStep(nb, a);
    SumStep(nb, b);
    if a < b {
      SumMonotone(nb, a + 1, b);
      assert false;
    } else if b < a {
      SumMonotone(nb, b + 1, a);
      assert false;
    }
  }

  /** A stream is owned exactly when it lies below the total. */
  lemma {:induction false} OwnedIff(idx: seq<nat>, nb: seq<nat>, stream: nat)
    requires Consecutive(idx, nb)
    ensures (exists lcore: nat :: Owns(idx, nb, lcore, stream)) <==> stream < Sum(nb)
    decreases |nb|
  {
    assert nb[..|nb|] == nb;
    if exists lcore: nat :: Owns(idx, nb, lcore, stream) {
      var lcore: nat :| Owns(idx, nb, lcore, stream);
      SumStep(nb, lcore);
      SumMonotone(nb, lcore + 1, |nb|);
    }
    if stream < Sum(nb) {
      assert nb != [];
      var n: nat := |nb| - 1;
      SumStep(nb, n);
      if idx[n] <= stream {
        assert Owns(idx, nb, n, stream);
      } else {
        assert forall i :: 0 <= i < n ==> nb[..n][..i] == nb[..i];
        OwnedIff(idx[..n], nb[..n], stream);
        var lcore: nat :| Owns(idx[..n], nb[..n], lcore, stream);
        assert Owns(idx, nb, lcore, stream);
      }
    }
  }

  /** setup_fwd_config_of_each_lcore() */
  method SetupLcores(nbFs: nat, nbFc: nat, streamIdx: array<nat>, streamNb: array<nat>)
    requires streamIdx != streamNb && nbFc <= streamIdx.Length && nbFc <= streamNb.Length
    requires nbFs < 0x1_0000 && nbFc < 0x100
    // streams are divided by the number of cores
    requires nbFs > 0 ==> nbFc > 0
    modifies streamIdx, streamNb
    ensures Consecutive(streamIdx[..nbFc], streamNb[..nbFc])
    // cores beyond the streams get a stream that is not there; the callers never ask for that
    ensures Sum(streamNb[..nbFc]) == if nbFs < nbFc then nbFc else nbFs
    ensures forall i, j :: 0 <= i < nbFc && 0 <= j < nbFc ==> streamNb[i] <= streamNb[j] + 1
    // the last cores get the streams that are left over
    ensures forall i, j :: 0 <= i < j < nbFc ==> streamNb[i] <= streamNb[j]
  {
    hide Sum, Consecutive;
    NothingAssigned();
    var perLcore: nat, extra: nat := 1, 0;
    if nbFs > nbFc {
      perLcore := nbFs / nbFc;
      extra := nbFs % nbFc;
    }
    var nbLc: nat := nbFc - extra;
    assert streamNb[..0] == [] && streamIdx[..0] == [];
    Products(nbFs, nbFc, perLcore, extra);
    var smId := GiveEach(streamIdx, streamNb, 0, nbLc, 0, perLcore);
    smId := GiveEach(streamIdx, streamNb, nbLc, extra, smId, (perLcore + 1) % 0x1_0000);
  }

  /** One of the two loops: `count` cores from `first` on get `per` streams each. */
  method GiveEach(streamIdx: array<nat>, streamNb: array<nat>, first: nat, count: nat, start: nat, per: nat)
    returns (smId: nat)
    requires streamIdx != streamNb && first + count <= streamIdx.Length && first + count <= streamNb.Length
    requires Assigned(streamIdx[..first], streamNb[..first], start)
    requires start + count * per < 0x1_0000
    modifies streamIdx, streamNb
    ensures smId == start + count * per
    ensures Assigned(streamIdx[..first + count], streamNb[..first + count], smId)
    ensures forall i :: 0 <= i < first ==> streamNb[i] == old(streamNb[i])
    ensures forall i :: first <= i < first + count ==> streamNb[i] == per
  {
    hide Assigned;
    smId := start;
    var lc: nat := 0;
    while lc < count
      invariant lc <= count && smId == start + lc * per
      invariant Assigned(streamIdx[..first + lc], streamNb[..first + lc], smId)
      invariant forall i :: 0 <= i < first ==> streamNb[i] == old(streamNb[i])
      invariant forall i :: first <= i < first + lc ==> streamNb[i] == per
    {
      MulMono(lc + 1, count, per);
      OneMore(lc, per);
      AssignNext(streamIdx[..first + lc], streamNb[..first + lc], smId, per);
      streamIdx[first + lc] := smId;
      streamNb[first + lc] := per;
      assert streamIdx[..first + lc + 1] == streamIdx[..first + lc] + [smId];
      assert streamNb[..first + lc + 1] == streamNb[..first + lc] + [per];
      smId := (smId + per) % 0x1_0000;
      lc := lc + 1;
    }
  }

  lemma OneMore(k: nat, per: nat)
    ensures (k + 1) * per == k * per + per
    ensures per * (k + 1) == per * k + per
  {}

  lemma NothingAssigned()
    ensures Assigned([], [], 0) && Sum([]) == 0
  {}

  ghost predicate Assigned(idx: seq<nat>, nb: seq<nat>, next: nat) {
    Consecutive(idx, nb) && Sum(nb) == next
  }

  lemma AssignNext(idx: seq<nat>, nb: seq<nat>, next: nat, n: nat)
    requires Assigned(idx, nb, next)
    ensures Assigned(idx + [next], nb + [n], next + n)
  {
    var all := nb + [n];
    assert all[..|nb|] == nb;
    forall i | 0 <= i < |all|
      ensures (idx + [next])[i] == Sum(all[..i])
    {
      if i < |nb| {
        assert all[..i] == nb[..i];
      }
    }
  }

  /** How many streams each core gets. */
  ghost predicate Shares(nbFs: nat, nbFc: nat, per: nat, extra: nat) {
    && (nbFs > nbFc ==> nbFc > 0 && per == nbFs / nbFc && extra == nbFs % nbFc)
    && (nbFs <= nbFc ==> per == 1 && extra == 0)
  }

  /** The two groups of cores take all the streams. */
  lemma Products(nbFs: nat, nbFc: nat, per: nat, extra: nat)
    requires nbFs < 0x1_0000 && nbFc < 0x100 && Shares(nbFs, nbFc, per, extra)
    ensures extra <= nbFc && per < 0x1_0000 && (extra > 0 ==> per + 1 < 0x1_0000)
    ensures (nbFc - extra) * per < 0x1_0000
    ensures (nbFc - extra) * per + extra * ((per + 1) % 0x1_0000) == if nbFs < nbFc then nbFc else nbFs
  {
    if nbFs <= nbFc {
      assert nbFc * per == nbFc;
    } else {
      assert nbFs == nbFc * per + extra;
      assert per <= nbFs by {
        MulMono(1, nbFc, per);
      }
      assert (nbFc - extra) * per + extra * per == nbFc * per;
      assert extra * (per + 1) == extra * per + extra;
      if extra > 0 {
        MulMono(1, nbFc, per);
      }
    }
  }

  // ----- topology -----

  /** fwd_topology_tx_port_get() */
  function TxPort(t: Topology, rxp: nat, nbPorts: nat): nat
    requires rxp < nbPorts
  {
    match t
    case Paired => if rxp % 2 == 0 then (if rxp + 1 < nbPorts then rxp + 1 else rxp) else rxp - 1
    case Chained => (rxp + 1) % nbPorts
    case Loop => rxp
  }

  function RxPortOf(t: Topology, txp: nat, nbPorts: nat): nat
    requires txp < nbPorts
  {
    match t
    case Paired => TxPort(t, txp, nbPorts)
    case Chained => if txp == 0 then nbPorts - 1 else txp - 1
    case Loop => txp
  }

  /** Every topology is a permutation of the ports. */
  lemma TopologyPermutes(t: Topology, p: nat, nbPorts: nat)
    requires p < nbPorts
    ensures TxPort(t, p, nbPorts) < nbPorts && RxPortOf(t, p, nbPorts) < nbPorts
    ensures RxPortOf(t, TxPort(t, p, nbPorts), nbPorts) == p
    ensures TxPort(t, RxPortOf(t, p, nbPorts), nbPorts) == p
  {
    if t == Chained {
      NextPort(p, nbPorts);
      NextPort(if p > 0 then p - 1 else nbPorts - 1, nbPorts);
    }
  }

  lemma NextPort(p: nat, nbPorts: nat)
    requires p < nbPorts
    ensures (p + 1) % nbPorts == if p + 1 == nbPorts then 0 else p + 1
  {
    if p + 1 == nbPorts {
      DivMod(p + 1, nbPorts, 1, 0);
    } else {
      DivMod(p + 1, nbPorts, 0, p + 1);
    }
  }

  // ----- the streams of the three set-ups -----

  ghost predicate DistinctPorts(ids: seq<nat>) {
    forall i, j :: 0 <= i < j < |ids| ==> ids[i] != ids[j]
  }

  /** Stream number s when the receive queues of a rank come port by port. */
  function RssStream(t: Topology, ids: seq<nat>, s: nat): Stream
    requires ids != []
  {
    var rxp, rxq := s % |ids|, s / |ids|;
    TopologyPermutes(t, rxp, |ids|);
    Stream(ids[rxp], rxq, ids[TxPort(t, rxp, |ids|)], rxq)
  }

  /** Stream number s when each port's queues come in a row. */
  function EchoStream(ids: seq<nat>, nbRxq: nat, s: nat): Stream
    requires nbRxq > 0 && s / nbRxq < |ids|
  {
    Stream(ids[s / nbRxq], s % nbRxq, ids[s / nbRxq], s % nbRxq)
  }

  /** The partner of the p-th port: ports 2k and 2k + 1 feed each other, and a last one without a
      partner feeds itself; or every port feeds the next and the last the first; or itself. */
  ghost predicate Partners(t: Topology, p: nat, txp: nat, nbPorts: nat) {
    && (t == Paired && p % 2 == 0 && p + 1 < nbPorts ==> txp == p + 1)
    && (t == Paired && p % 2 == 0 && p + 1 == nbPorts ==> txp == p)
    && (t == Paired && p % 2 == 1 ==> txp + 1 == p)
    && (t == Chained && p + 1 < nbPorts ==> txp == p + 1)
    && (t == Chained && p + 1 == nbPorts ==> txp == 0)
    && (t == Loop ==> txp == p)
  }

  /** A stream sends to the partner of the port it receives from. */
  ghost predicate Wired(t: Topology, ids: seq<nat>, st: Stream) {
    && st.txQueue == st.rxQueue
    && exists p, txp :: 0 <= p < |ids| && 0 <= txp < |ids| && st.rxPort == ids[p] && st.txPort == ids[txp]
                        && Partners(t, p, txp, |ids|)
  }

  lemma TopologyMeans(t: Topology, p: nat, nbPorts: nat)
    requires p < nbPorts
    ensures TxPort(t, p, nbPorts) < nbPorts && Partners(t, p, TxPort(t, p, nbPorts), nbPorts)
    // in pairs, a port feeds itself exactly when it is the last of an odd number
    ensures t == Paired ==> (TxPort(t, p, nbPorts) == p <==> nbPorts % 2 == 1 && p == nbPorts - 1)
  {
    TopologyPermutes(t, p, nbPorts);
    NextPort(p, nbPorts);
  }

  /** The partner is determined by the port: ports that are distinct are wired in one way only. */
  lemma WiredOnce(t: Topology, ids: seq<nat>, a: Stream, b: Stream)
    requires DistinctPorts(ids) && Wired(t, ids, a) && Wired(t, ids, b) && a.rxPort == b.rxPort
    ensures a.txPort == b.txPort
  {}

  /** The first queue of every port, then the second of every port, and so on. */
  ghost predicate QueueByQueue(t: Topology, ids: seq<nat>, streams: seq<Stream>) {
    forall s :: 0 <= s < |streams| ==>
      && ids != [] && streams[s].rxPort == ids[s % |ids|] && streams[s].rxQueue == s / |ids|
      && Wired(t, ids, streams[s])
  }

  /** All queues of the first port, then those of the second, and so on, each answering where it is
      asked. */
  ghost predicate PortByPort(ids: seq<nat>, nbRxq: nat, streams: seq<Stream>) {
    forall s :: 0 <= s < |streams| ==>
      && nbRxq > 0 && s / nbRxq < |ids|
      && streams[s].rxPort == ids[s / nbRxq] && streams[s].rxQueue == s % nbRxq
      && streams[s].txPort == streams[s].rxPort && streams[s].txQueue == streams[s].rxQueue
  }

  lemma RssWired(t: Topology, ids: seq<nat>, streams: seq<Stream>)
    requires ids != [] && forall s :: 0 <= s < |streams| ==> streams[s] == RssStream(t, ids, s)
    ensures QueueByQueue(t, ids, streams)
  {
    forall s | 0 <= s < |streams|
      ensures streams[s].rxPort == ids[s % |ids|] && streams[s].rxQueue == s / |ids| && Wired(t, ids, streams[s])
    {
      var p := s % |ids|;
      TopologyMeans(t, p, |ids|);
      assert streams[s].rxPort == ids[p] && streams[s].txPort == ids[TxPort(t, p, |ids|)];
    }
  }

  /** No two streams share a receive queue or a transmit queue. */
  ghost predicate Exclusive(streams: seq<Stream>) {
    forall i, j :: 0 <= i < j < |streams| ==>
      && (streams[i].rxPort != streams[j].rxPort || streams[i].rxQueue != streams[j].rxQueue)
      && (streams[i].txPort != streams[j].txPort || streams[i].txQueue != streams[j].txQueue)
  }

  lemma SameQuotientRemainder(a: nat, b: nat, n: nat)
    requires n > 0 && a / n == b / n && a % n == b % n
    ensures a == b
  {
    assert a == n * (a / n) + a % n && b == n * (b / n) + b % n;
  }

  lemma {:induction false} RssExclusive(t: Topology, ids: seq<nat>, streams: seq<Stream>)
    requires ids != [] && DistinctPorts(ids)
    requires forall s :: 0 <= s < |streams| ==> streams[s] == RssStream(t, ids, s)
    ensures Exclusive(streams)
  {
    var n := |ids|;
    forall i, j | 0 <= i < j < |streams|
      ensures streams[i].rxPort != streams[j].rxPort || streams[i].rxQueue != streams[j].rxQueue
      ensures streams[i].txPort != streams[j].txPort || streams[i].txQueue != streams[j].txQueue
    {
      TopologyPermutes(t, i % n, n);
      TopologyPermutes(t, j % n, n);
      if i / n == j / n && i % n == j % n {
        SameQuotientRemainder(i, j, n);
        assert false;
      }
    }
  }

  lemma {:induction false} EchoExclusive(ids: seq<nat>, nbRxq: nat, streams: seq<Stream>)
    requires DistinctPorts(ids)
    requires forall s :: 0 <= s < |streams| ==>
               nbRxq > 0 && s / nbRxq < |ids| && streams[s] == EchoStream(ids, nbRxq, s)
    ensures Exclusive(streams)
  {
    forall i, j | 0 <= i < j < |streams|
      ensures streams[i].rxPort != streams[j].rxPort || streams[i].rxQueue != streams[j].rxQueue
      ensures streams[i].txPort != streams[j].txPort || streams[i].txQueue != streams[j].txQueue
    {
      var first, second := streams[i], streams[j];
      if i / nbRxq == j / nbRxq && i % nbRxq == j % nbRxq {
        SameQuotientRemainder(i, j, nbRxq);
        assert false;
      }
    }
  }

  /** Every one of the nbRxq receive queues of every port is polled. */
  ghost predicate AllPolled(streams: seq<Stream>, ids: seq<nat>, nbRxq: nat) {
    forall p, q :: 0 <= p < |ids| && 0 <= q < nbRxq ==> Polled(streams, ids[p], q)
  }

  /** The streams use ports and queues that exist. */
  ghost predicate Existing(streams: seq<Stream>, ids: seq<nat>, nbRxq: nat, nbTxq: nat) {
    forall s :: 0 <= s < |streams| ==>
      && streams[s].rxPort in ids && streams[s].rxQueue < nbRxq
      && streams[s].txPort in ids && streams[s].txQueue < nbTxq
  }

  function Min(a: nat, b: nat): nat {
    if a < b then a else b
  }

  /** RSS leaves a receive queue unpolled exactly when there are fewer transmit queues, or the
      number of streams wrapped at 2^16. */
  lemma {:induction false} RssCoversIff(t: Topology, ids: seq<nat>, nbRxq: nat, nbTxq: nat, streams: seq<Stream>)
    requires ids != [] && DistinctPorts(ids) && |streams| == (Min(nbRxq, nbTxq) * |ids|) % 0x1_0000
    requires forall s :: 0 <= s < |streams| ==> streams[s] == RssStream(t, ids, s)
    ensures AllPolled(streams, ids, nbRxq) <==> nbRxq <= nbTxq && nbRxq * |ids| < 0x1_0000
    ensures Existing(streams, ids, nbRxq, nbTxq)
  {
    hide Polled, RssStream;
    var nbQ := Min(nbRxq, nbTxq);
    forall s | 0 <= s < |streams|
      ensures streams[s].rxQueue < nbQ && streams[s].rxPort in ids
      ensures streams[s].txQueue < nbQ && streams[s].txPort in ids
    {
      RssExists(t, ids, nbQ, s);
    }
    if nbRxq > nbTxq {
      NotPolled(streams, ids[0], nbTxq);
    } else if nbQ > 0 {
      RssCoversQueues(t, ids, nbQ, streams);
    }
  }

  /** Three receive and two transmit queues: the third receive queue has no stream. */
  lemma RssQueueMissed()
    ensures !AllPolled([RssStream(Loop, [0], 0), RssStream(Loop, [0], 1)], [0], 3)
  {
    NotPolled([RssStream(Loop, [0], 0), RssStream(Loop, [0], 1)], 0, 2);
    assert [0][0] == 0;
  }

  lemma RssExists(t: Topology, ids: seq<nat>, nbQ: nat, s: nat)
    requires ids != [] && s < nbQ * |ids|
    ensures RssStream(t, ids, s).rxPort in ids && RssStream(t, ids, s).rxQueue < nbQ
    ensures RssStream(t, ids, s).txPort in ids && RssStream(t, ids, s).txQueue < nbQ
  {
    assert |ids| * nbQ == nbQ * |ids|;
    QuotientBelow(s, |ids|, nbQ);
    TopologyPermutes(t, s % |ids|, |ids|);
  }

  lemma NotPolled(streams: seq<Stream>, port: nat, queue: nat)
    requires forall s :: 0 <= s < |streams| ==> streams[s].rxQueue != queue
    ensures !Polled(streams, port, queue)
  {}

  /** The queues that have streams are polled as long as the number of streams did not wrap. */
  lemma {:induction false} RssCoversQueues(t: Topology, ids: seq<nat>, nbQ: nat, streams: seq<Stream>)
    requires ids != [] && DistinctPorts(ids) && nbQ > 0
    requires |streams| == (nbQ * |ids|) % 0x1_0000
    requires forall s :: 0 <= s < |streams| ==> streams[s] == RssStream(t, ids, s)
    ensures AllPolled(streams, ids, nbQ) <==> nbQ * |ids| < 0x1_0000
  {
    var n := |ids|;
    if nbQ * n < 0x1_0000 {
      forall p, q | 0 <= p < n && 0 <= q < nbQ
        ensures Polled(streams, ids[p], q)
      {
        var s := n * q + p;
        DivMod(s, n, q, p);
        Below(n, nbQ, q, p);
        assert streams[s].rxPort == ids[p] && streams[s].rxQueue == q;
      }
    } else {
      // the last queue of the last port belongs to the stream that was cut off
      var last := n * (nbQ - 1) + (n - 1);
      DivMod(last, n, nbQ - 1, n - 1);
      assert last == nbQ * n - 1;
      if Polled(streams, ids[n - 1], nbQ - 1) {
        var s :| 0 <= s < |streams| && streams[s].rxPort == ids[n - 1] && streams[s].rxQueue == nbQ - 1;
        assert ids[s % n] == ids[n - 1];
        assert s % n == n - 1;
        SameQuotientRemainder(s, last, n);
      }
    }
  }

  /** The limits of the default build: ports, and queues of a port. */
  const RTE_MAX_ETHPORTS: nat := 32
  const RTE_MAX_QUEUES_PER_PORT: nat := 1024

  /** Within these limits the number of streams never wraps. */
  lemma NoWrap(nbPorts: nat, nbQ: nat)
    requires nbPorts <= RTE_MAX_ETHPORTS && nbQ <= RTE_MAX_QUEUES_PER_PORT
    ensures nbQ * nbPorts < 0x1_0000
  {
    MulMono(nbQ, RTE_MAX_QUEUES_PER_PORT, nbPorts);
  }

  /** The echo set-up leaves a receive queue unpolled exactly when the number of streams wrapped. */
  lemma {:induction false} EchoCoversIff(ids: seq<nat>, nbRxq: nat, streams: seq<Stream>)
    requires ids != [] && DistinctPorts(ids) && |streams| == (nbRxq * |ids|) % 0x1_0000
    requires forall s :: 0 <= s < |streams| ==>
               nbRxq > 0 && s / nbRxq < |ids| && streams[s] == EchoStream(ids, nbRxq, s)
    ensures AllPolled(streams, ids, nbRxq) <==> nbRxq * |ids| < 0x1_0000
  {
    hide Polled;
    var n := |ids|;
    if nbRxq * n < 0x1_0000 {
      forall p, q | 0 <= p < n && 0 <= q < nbRxq
        ensures Polled(streams, ids[p], q)
      {
        var s := nbRxq * p + q;
        Below(nbRxq, n, p, q);
        EchoAt(ids, nbRxq, s, p, q);
        PolledBy(streams, s);
      }
    } else {
      LastEchoUnpolled(ids, nbRxq, streams);
    }
  }

  lemma PolledBy(streams: seq<Stream>, s: nat)
    requires s < |streams|
    ensures Polled(streams, streams[s].rxPort, streams[s].rxQueue)
  {}

  /** The last queue of the last port belongs to the stream that was cut off. */
  lemma {:induction false} LastEchoUnpolled(ids: seq<nat>, nbRxq: nat, streams: seq<Stream>)
    requires ids != [] && nbRxq > 0 && DistinctPorts(ids) && |streams| < nbRxq * |ids|
    requires forall s :: 0 <= s < |streams| ==> s / nbRxq < |ids| && streams[s] == EchoStream(ids, nbRxq, s)
    ensures !Polled(streams, ids[|ids| - 1], nbRxq - 1)
  {
    hide EchoStream, DistinctPorts;
    var n := |ids|;
    if Polled(streams, ids[n - 1], nbRxq - 1) {
      var s :| 0 <= s < |streams| && streams[s].rxPort == ids[n - 1] && streams[s].rxQueue == nbRxq - 1;
      EchoStreamIs(ids, nbRxq, s, n - 1, nbRxq - 1);
      OneMore(n - 1, nbRxq);
    }
  }

  lemma EchoStreamIs(ids: seq<nat>, nbRxq: nat, s: nat, p: nat, q: nat)
    requires nbRxq > 0 && s / nbRxq < |ids| && p < |ids| && DistinctPorts(ids)
    requires EchoStream(ids, nbRxq, s).rxPort == ids[p] && EchoStream(ids, nbRxq, s).rxQueue == q
    ensures s == nbRxq * p + q
  {
    assert s == nbRxq * (s / nbRxq) + s % nbRxq;
    assert s / nbRxq == p;
  }

  /** The simple set-up polls one queue of each port. */
  lemma {:induction false} SimpleCoversIff(t: Topology, ids: seq<nat>, nbRxq: nat, streams: seq<Stream>)
    requires ids != [] && |streams| == |ids|
    requires forall s :: 0 <= s < |streams| ==> streams[s] == RssStream(t, ids, s)
    ensures AllPolled(streams, ids, nbRxq) <==> nbRxq <= 1
  {
    forall s | 0 <= s < |streams|
      ensures streams[s].rxQueue == 0 && streams[s].rxPort == ids[s]
    {
      DivMod(s, |ids|, 0, s);
    }
    if nbRxq > 1 {
      NotPolled(streams, ids[0], 1);
    }
  }

  ghost predicate Polled(streams: seq<Stream>, port: nat, queue: nat) {
    exists s :: 0 <= s < |streams| && streams[s].rxPort == port && streams[s].rxQueue == queue
  }

  lemma DivMod(s: nat, n: nat, q: nat, r: nat)
    requires n > 0 && s == n * q + r && r < n
    ensures s / n == q && s % n == r
  {
    var q', r' := s / n, s % n;
    assert n * q' + r' == n * q + r;
    if q' < q {
      AtLeast(n, q - q');
      assert false;
    } else if q < q' {
      AtLeast(n, q' - q);
      assert false;
    }
  }

  lemma AtLeast(d: nat, x: nat)
    requires x >= 1
    ensures d * x >= d
  {}

  lemma Below(n: nat, nbQ: nat, q: nat, p: nat)
    requires q < nbQ && p < n
    ensures n * q + p < nbQ * n
  {
    MulMono(q + 1, nbQ, n);
    assert (q + 1) * n == n * q + n;
  }

  /** The echo set-up uses transmit queues numbered like the receive queues: they all exist exactly
      when there are as many of them as receive queues with a stream. */
  lemma {:induction false} EchoTxQueuesExistIff(ids: seq<nat>, nbRxq: nat, nbTxq: nat, streams: seq<Stream>)
    requires forall s :: 0 <= s < |streams| ==>
               nbRxq > 0 && s / nbRxq < |ids| && streams[s] == EchoStream(ids, nbRxq, s)
    ensures (forall s :: 0 <= s < |streams| ==> streams[s].txQueue < nbTxq) <==> Min(|streams|, nbRxq) <= nbTxq
  {
    if Min(|streams|, nbRxq) <= nbTxq {
      forall s | 0 <= s < |streams|
        ensures streams[s].txQueue < nbTxq
      {
        if s < nbRxq {
          DivMod(s, nbRxq, 0, s);
        }
      }
    } else {
      var s := Min(|streams|, nbRxq) - 1;
      assert streams[s].txQueue == s by {
        DivMod(s, nbRxq, 0, s);
      }
    }
  }

  lemma SimpleCovers(t: Topology, ids: seq<nat>, streams: seq<Stream>)
    requires ids != [] && |streams| == |ids|
    requires forall s :: 0 <= s < |streams| ==> streams[s] == RssStream(t, ids, s)
    ensures forall nbRxq: nat :: AllPolled(streams, ids, nbRxq) <==> nbRxq <= 1
  {
    hide RssStream, AllPolled;
    forall nbRxq: nat
      ensures AllPolled(streams, ids, nbRxq) <==> nbRxq <= 1
    {
      SimpleCoversIff(t, ids, nbRxq, streams);
    }
  }

  lemma EchoAnswers(ids: seq<nat>, nbRxq: nat, streams: seq<Stream>)
    requires forall s :: 0 <= s < |streams| ==>
               nbRxq > 0 && s / nbRxq < |ids| && streams[s] == EchoStream(ids, nbRxq, s)
    ensures PortByPort(ids, nbRxq, streams)
  {}

  /** Two receive queues and one transmit queue: the second stream sends to a queue that is not there. */
  lemma EchoTxQueueMissing()
    ensures EchoStream([0], 2, 1) == Stream(0, 1, 0, 1)
    ensures !(forall s :: 0 <= s < 2 ==> [EchoStream([0], 2, 0), EchoStream([0], 2, 1)][s].txQueue < 1)
  {
    assert [EchoStream([0], 2, 0), EchoStream([0], 2, 1)][1].txQueue == 1;
  }

  class Config {
    const streams: array<Stream>
    const streamIdx: array<nat>
    const streamNb: array<nat>
    // cur_fwd_config
    var nbFwdStreams: nat
    var nbFwdLcores: nat

    constructor (nbStreams: nat, nbLcores: nat)
      ensures fresh(streams) && fresh(streamIdx) && fresh(streamNb) && streamIdx != streamNb
      ensures streams.Length == nbStreams && streamIdx.Length == streamNb.Length == nbLcores
    {
      streams := new Stream[nbStreams](_ => Stream(0, 0, 0, 0));
      streamIdx := new nat[nbLcores];
      streamNb := new nat[nbLcores];
      nbFwdStreams, nbFwdLcores := 0, 0;
    }

    /** Cores own disjoint, consecutive, evenly sized ranges that cover the streams. */
    ghost predicate Balanced()
      reads this, streamIdx, streamNb
    {
      && nbFwdLcores <= streamIdx.Length && nbFwdLcores <= streamNb.Length
      && Consecutive(streamIdx[..nbFwdLcores], streamNb[..nbFwdLcores])
      && Sum(streamNb[..nbFwdLcores]) == nbFwdStreams
      && (forall i, j :: 0 <= i < nbFwdLcores && 0 <= j < nbFwdLcores ==> streamNb[i] <= streamNb[j] + 1)
      && forall i, j :: 0 <= i < j < nbFwdLcores ==> streamNb[i] <= streamNb[j]
    }

    /** simple_fwd_config_setup() */
    method SimpleSetup(t: Topology, ids: seq<nat>, nbLcores: nat)
      requires streamIdx != streamNb && |ids| <= streams.Length && |ids| < 0x1_0000
      requires 0 < nbLcores < 0x100 && nbLcores <= streamIdx.Length && nbLcores <= streamNb.Length
      requires ids != [] && DistinctPorts(ids)
      modifies this, streams, streamIdx, streamNb
      ensures nbFwdStreams == |ids| <= streams.Length && Balanced()
      ensures forall s :: 0 <= s < |ids| ==> streams[s] == RssStream(t, ids, s)
      ensures Exclusive(streams[..nbFwdStreams])
      ensures forall nbRxq: nat :: AllPolled(streams[..nbFwdStreams], ids, nbRxq) <==> nbRxq <= 1
      ensures QueueByQueue(t, ids, streams[..nbFwdStreams])
      ensures nbFwdLcores == if nbLcores <= |ids| then nbLcores else |ids|
    {
      hide Exclusive, RssStream, Sum, Consecutive, AllPolled, QueueByQueue;
      nbFwdStreams := |ids|;
      nbFwdLcores := nbLcores;
      if nbFwdLcores > |ids| {
        nbFwdLcores := |ids| % 0x100;
      }
      SetupLcores(nbFwdStreams, nbFwdLcores, streamIdx, streamNb);
      var i: nat := 0;
      while i < |ids|
        modifies streams
        invariant i <= |ids|
        invariant forall s :: 0 <= s < i ==> streams[s] == RssStream(t, ids, s)
      {
        RssAt(t, ids, i, i, 0);
        streams[i] := Stream(ids[i], 0, ids[TxPort(t, i, |ids|)], 0);
        i := i + 1;
      }
      RssExclusive(t, ids, streams[..nbFwdStreams]);
      SimpleCovers(t, ids, streams[..nbFwdStreams]);
      RssWired(t, ids, streams[..nbFwdStreams]);
      assert forall s :: 0 <= s < nbFwdStreams ==> streams[..nbFwdStreams][s] == streams[s];
    }

    /** rss_fwd_config_setup() */
    method RssSetup(t: Topology, ids: seq<nat>, nbLcores: nat, nbRxq: nat, nbTxq: nat)
      requires streamIdx != streamNb
      requires 0 < nbLcores < 0x100 && nbLcores <= streamIdx.Length && nbLcores <= streamNb.Length
      requires ids != [] && |ids| < 0x1_0000 && DistinctPorts(ids)
      requires (Min(nbRxq, nbTxq) * |ids|) % 0x1_0000 <= streams.Length
      modifies this, streams, streamIdx, streamNb
      ensures nbFwdStreams == (Min(nbRxq, nbTxq) * |ids|) % 0x1_0000 <= streams.Length
      ensures Balanced()
      ensures forall s :: 0 <= s < nbFwdStreams ==> streams[s] == RssStream(t, ids, s)
      ensures Exclusive(streams[..nbFwdStreams]) && Existing(streams[..nbFwdStreams], ids, nbRxq, nbTxq)
      ensures AllPolled(streams[..nbFwdStreams], ids, nbRxq) <==> nbRxq <= nbTxq && nbRxq * |ids| < 0x1_0000
      ensures QueueByQueue(t, ids, streams[..nbFwdStreams])
      ensures nbFwdLcores == if nbLcores <= nbFwdStreams then nbLcores else nbFwdStreams
    {
      hide Exclusive, RssStream, Sum, Consecutive, AllPolled, Existing, QueueByQueue;
      var nbQ := nbRxq;
      if nbQ > nbTxq {
        nbQ := nbTxq;
      }
      nbFwdLcores := nbLcores;
      nbFwdStreams := (nbQ * |ids|) % 0x1_0000;
      if nbFwdStreams < nbFwdLcores {
        nbFwdLcores := nbFwdStreams % 0x100;
      }
      SetupLcores(nbFwdStreams, nbFwdLcores, streamIdx, streamNb);
      RssFill(t, ids);
      RssExclusive(t, ids, streams[..nbFwdStreams]);
      RssCoversIff(t, ids, nbRxq, nbTxq, streams[..nbFwdStreams]);
      RssWired(t, ids, streams[..nbFwdStreams]);
      assert forall s :: 0 <= s < nbFwdStreams ==> streams[..nbFwdStreams][s] == streams[s];
    }

    /** Port after port gets a stream for a queue, then for the next. */
    method RssFill(t: Topology, ids: seq<nat>)
      requires ids != [] && nbFwdStreams <= streams.Length
      modifies streams
      ensures forall s :: 0 <= s < nbFwdStreams ==> streams[s] == RssStream(t, ids, s)
    {
      hide RssStream;
      var rxp: nat, rxq: nat, sm: nat := 0, 0, 0;
      while sm < nbFwdStreams
        modifies streams
        invariant sm <= nbFwdStreams && rxp < |ids| && sm == |ids| * rxq + rxp
        invariant forall s :: 0 <= s < sm ==> streams[s] == RssStream(t, ids, s)
      {
        RssAt(t, ids, sm, rxp, rxq);
        streams[sm] := Stream(ids[rxp], rxq, ids[TxPort(t, rxp, |ids|)], rxq);
        sm := sm + 1;
        rxp := rxp + 1;
        if rxp == |ids| {
          assert |ids| * (rxq + 1) == |ids| * rxq + |ids|;
          rxp := 0;
          rxq := rxq + 1;
        }
      }
    }

    /** icmp_echo_config_setup() */
    method EchoSetup(ids: seq<nat>, nbLcores: nat, nbRxq: nat, nbTxq: nat)
      requires streamIdx != streamNb
      requires 0 < nbLcores < 0x100 && nbLcores <= streamIdx.Length && nbLcores <= streamNb.Length
      requires ids != [] && DistinctPorts(ids)
      // without transmit queues there are no cores to divide the streams by
      requires nbTxq > 0 || (nbRxq * |ids|) % 0x1_0000 == 0
      requires (nbRxq * |ids|) % 0x1_0000 <= streams.Length
      modifies this, streams, streamIdx, streamNb
      ensures nbFwdStreams == (nbRxq * |ids|) % 0x1_0000 <= streams.Length && Balanced()
      ensures Echoed(ids, nbRxq, nbFwdStreams)
      ensures Exclusive(streams[..nbFwdStreams])
      ensures AllPolled(streams[..nbFwdStreams], ids, nbRxq) <==> nbRxq * |ids| < 0x1_0000
      ensures (forall s :: 0 <= s < nbFwdStreams ==> streams[s].txQueue < nbTxq)
         <==> Min(nbFwdStreams, nbRxq) <= nbTxq
      ensures PortByPort(ids, nbRxq, streams[..nbFwdStreams])
      ensures EchoCores(nbLcores, nbTxq * |ids|)
    {
      hide Exclusive, EchoStream, Balanced, AllPolled, PortByPort;
      EchoShape(|ids|, nbLcores, nbRxq, nbTxq);
      if nbRxq == 0 {
        assert nbRxq * |ids| == 0;
      }
      EchoFill(ids, nbRxq);
      ghost var all := streams[..nbFwdStreams];
      EchoExclusive(ids, nbRxq, all);
      EchoCoversIff(ids, nbRxq, all);
      EchoTxQueuesExistIff(ids, nbRxq, nbTxq, all);
      assert forall s :: 0 <= s < nbFwdStreams ==> all[s] == streams[s];
      EchoAnswers(ids, nbRxq, all);
    }

    /** No more cores are used than there are transmit queues, nor than there are streams. */
    ghost predicate EchoCores(nbLcores: nat, txqs: nat)
      reads this`nbFwdLcores, this`nbFwdStreams
    {
      && nbFwdLcores <= nbLcores && nbFwdLcores <= txqs && nbFwdLcores <= nbFwdStreams
      && (nbFwdLcores == nbLcores || nbFwdLcores == txqs || nbFwdLcores == nbFwdStreams)
    }

    /** The numbers of cores and streams for so many queues of all ports. */
    method EchoNumbers(nbLcores: nat, rxqs: nat, txqs: nat)
      requires (txqs > 0 || rxqs % 0x1_0000 == 0) && 0 < nbLcores < 0x100
      modifies this`nbFwdLcores, this`nbFwdStreams
      ensures nbFwdStreams == rxqs % 0x1_0000
      ensures EchoCores(nbLcores, txqs) && (nbFwdStreams > 0 ==> nbFwdLcores > 0)
    {
      if txqs < nbLcores {
        nbFwdLcores := txqs % 0x100;
      } else {
        nbFwdLcores := nbLcores;
      }
      nbFwdStreams := rxqs % 0x1_0000;
      if nbFwdStreams < nbFwdLcores {
        nbFwdLcores := nbFwdStreams % 0x100;
      }
    }

    /** The streams of each core. */
    method EchoShape(nbPorts: nat, nbLcores: nat, nbRxq: nat, nbTxq: nat)
      requires streamIdx != streamNb && nbPorts > 0
      requires nbTxq > 0 || (nbRxq * nbPorts) % 0x1_0000 == 0
      requires 0 < nbLcores < 0x100 && nbLcores <= streamIdx.Length && nbLcores <= streamNb.Length
      modifies this, streamIdx, streamNb
      ensures nbFwdStreams == (nbRxq * nbPorts) % 0x1_0000 && nbFwdLcores <= nbFwdStreams
      ensures EchoCores(nbLcores, nbTxq * nbPorts)
      ensures Balanced()
    {
      hide Sum, Consecutive;
      if nbTxq > 0 {
        MulMono(1, nbPorts, nbTxq);
      }
      EchoNumbers(nbLcores, nbRxq * nbPorts, nbTxq * nbPorts);
      SetupLcores(nbFwdStreams, nbFwdLcores, streamIdx, streamNb);
    }

    method EchoFill(ids: seq<nat>, nbRxq: nat)
      requires Balanced() && nbFwdLcores <= nbFwdStreams <= streams.Length && nbFwdStreams <= nbRxq * |ids|
      requires streamIdx != streamNb && (nbRxq == 0 ==> nbFwdStreams == 0)
      modifies streams
      ensures Echoed(ids, nbRxq, nbFwdStreams)
    {
      hide EchoStream, Sum, Echoed;
      NothingEchoed(ids, nbRxq);
      var rxp: nat, rxq: nat := 0, 0;
      var lc: nat := 0;
      ghost var total := streamNb[..nbFwdLcores];
      assert total[..0] == [] && total[..nbFwdLcores] == total;
      NothingAssigned();
      while lc < nbFwdLcores
        modifies streams
        invariant lc <= nbFwdLcores && (nbRxq > 0 ==> rxq < nbRxq)
        invariant Sum(total[..lc]) == nbRxq * rxp + rxq <= nbFwdStreams
        invariant Echoed(ids, nbRxq, Sum(total[..lc]))
      {
        SumStep(total, lc);
        SumMonotone(total, lc + 1, nbFwdLcores);
        assert streamIdx[..nbFwdLcores][lc] == streamIdx[lc] == Sum(total[..lc]);
        rxp, rxq := EchoLcore(ids, nbRxq, streamIdx[lc], streamNb[lc], rxp, rxq);
        lc := lc + 1;
      }
    }

    lemma NothingEchoed(ids: seq<nat>, nbRxq: nat)
      ensures Echoed(ids, nbRxq, 0)
    {}

    ghost predicate Echoed(ids: seq<nat>, nbRxq: nat, n: nat)
      reads this, streams
    {
      && n <= streams.Length
      && forall s :: 0 <= s < n ==> nbRxq > 0 && s / nbRxq < |ids| && streams[s] == EchoStream(ids, nbRxq, s)
    }

    /** The streams of one core. */
    method EchoLcore(ids: seq<nat>, nbRxq: nat, idx: nat, nb: nat, rxp0: nat, rxq0: nat) returns (rxp: nat, rxq: nat)
      requires rxq0 < nbRxq && idx == nbRxq * rxp0 + rxq0 && idx + nb <= nbRxq * |ids| && idx + nb <= streams.Length
      requires Echoed(ids, nbRxq, idx)
      modifies streams
      ensures rxq < nbRxq && idx + nb == nbRxq * rxp + rxq
      ensures Echoed(ids, nbRxq, idx + nb)
    {
      hide EchoStream;
      rxp, rxq := rxp0, rxq0;
      var smId: nat := 0;
      while smId < nb
        invariant smId <= nb
        invariant rxq < nbRxq && idx + smId == nbRxq * rxp + rxq
        invariant Echoed(ids, nbRxq, idx + smId)
      {
        var at := idx + smId;
        EchoAt(ids, nbRxq, at, rxp, rxq);
        streams[at] := Stream(ids[rxp], rxq, ids[rxp], rxq);
        smId := smId + 1;
        rxq := rxq + 1;
        if rxq == nbRxq {
          OneMore(rxp, nbRxq);
          rxq := 0;
          rxp := rxp + 1;
        }
      }
    }
  }

  lemma RssAt(t: Topology, ids: seq<nat>, sm: nat, rxp: nat, rxq: nat)
    requires rxp < |ids| && sm == |ids| * rxq + rxp
    ensures TxPort(t, rxp, |ids|) < |ids|
    ensures RssStream(t, ids, sm) == Stream(ids[rxp], rxq, ids[TxPort(t, rxp, |ids|)], rxq)
  {
    TopologyPermutes(t, rxp, |ids|);
    DivMod(sm, |ids|, rxq, rxp);
  }

  lemma EchoAt(ids: seq<nat>, nbRxq: nat, at: nat, rxp: nat, rxq: nat)
    requires rxq < nbRxq && at == nbRxq * rxp + rxq && at < nbRxq * |ids|
    ensures at / nbRxq == rxp < |ids|
    ensures EchoStream(ids, nbRxq, at) == Stream(ids[rxp], rxq, ids[rxp], rxq)
  {
    DivMod(at, nbRxq, rxp, rxq);
    QuotientBelow(at, nbRxq, |ids|);
  }

  lemma QuotientBelow(s: nat, n: nat, m: nat)
    requires n > 0 && s < n * m
    ensures s / n < m
  {
    assert s == n * (s / n) + s % n;
    if s / n >= m {
      MulMono(m, s / n, n);
    }
  }

  /** No queue is reached from two cores. */
  lemma {:induction false} QueueExclusivity(streams: seq<Stream>, idx: seq<nat>, nb: seq<nat>,
                                            a: nat, b: nat, s: nat, t: nat)
    requires Exclusive(streams) && Consecutive(idx, nb) && Sum(nb) == |streams|
    requires a != b && Owns(idx, nb, a, s) && Owns(idx, nb, b, t)
    ensures s < |streams| && t < |streams|
    ensures streams[s].rxPort != streams[t].rxPort || streams[s].rxQueue != streams[t].rxQueue
    ensures streams[s].txPort != streams[t].txPort || streams[s].txQueue != streams[t].txQueue
  {
    OwnedIff(idx, nb, s);
    OwnedIff(idx, nb, t);
    if s == t {
      OneOwner(idx, nb, a, b, s);
    }
    assert s < t || t < s;
  }
}
