/** The flow rules of a port: config.c keeps them in a singly linked list, newest first, in step
    with the rules the device holds.
  */
module FlowRules {
  import opened Optional

  type Handle = nat

  const UINT32_MAX: nat := 0xFFFF_FFFF

  /** rte_flow: creation and destruction may fail, a flush may fail half way. */
  class Device {
    var live: set<Handle>
    // how many rules were created, and how many destructions were asked for
    ghost var made: nat
    ghost var asked: nat
    // the rules it refused to destroy, in order
    ghost var refused: seq<Handle>

    method Create() returns (h: Option<Handle>)
      modifies this
      ensures h.None? ==> live == old(live)
      ensures h.Some? ==> h.value !in old(live) && live == old(live) + {h.value}
      ensures made == old(made) + (if h.Some? then 1 else 0) && asked == old(asked) && refused == old(refused)
    {
      h := None;
      var fails: bool := *;
      if !fails {
        var fresh' := Unused(live);
        live := live + {fresh'};
        h := Some(fresh');
        made := made + 1;
      }
    }

    method Destroy(h: Handle) returns (ok: bool)
      modifies this
      ensures live == if ok then old(live) - {h} else old(live)
      ensures refused == if ok then old(refused) else old(refused) + [h]
      ensures asked == old(asked) + 1 && made == old(made)
    {
      asked := asked + 1;
      ok := *;
      if ok {
        live := live - {h};
      } else {
        refused := refused + [h];
      }
    }

    method Flush() returns (ok: bool)
      modifies this
      ensures ok ==> live == {}
      ensures live <= old(live) && made == old(made) && asked == old(asked) && refused == old(refused)
    {
      ok := *;
      if ok {
        live := {};
      } else {
        var kept: set<Handle> :| kept <= live;
        live := kept;
      }
    }
  }

  /** n more refusals, all of the same rule */
  ghost predicate Refusals(was: seq<Handle>, now: seq<Handle>, h: Handle, n: int) {
    was <= now && |now| == |was| + n && forall x :: x in now[|was|..] ==> x == h
  }

  lemma RefusedOnce(was: seq<Handle>, now: seq<Handle>, h: Handle, n: int)
    ensures Refusals(was, was, h, 0)
    ensures Refusals(was, now, h, n) ==> Refusals(was, now + [h], h, n + 1)
  {
    if Refusals(was, now, h, n) {
      assert (now + [h])[|was|..] == now[|was|..] + [h];
    }
  }

  lemma RefusalsMean(was: seq<Handle>, now: seq<Handle>, h: Handle, n: int)
    requires Refusals(was, now, h, n)
    ensures was <= now && (now == was <==> n == 0) && (n > 0 ==> h in now[|was|..])
  {
    if n > 0 {
      assert now[|was|..][0] in now[|was|..];
    }
  }

  method Unused(s: set<Handle>) returns (h: Handle)
    ensures h !in s
  {
    h := 0;
    var left := s;
    while left != {}
      invariant left <= s
      invariant forall x :: x in s && x !in left ==> x < h
      decreases left
    {
      var x :| x in left;
      left := left - {x};
      if x >= h {
        h := x + 1;
      }
    }
  }

  /** struct port_flow */
  class Rule {
    const group: nat
    const priority: nat
    var id: nat
    var flow: Handle
    var next: Rule?
    var tmp: Rule?

    constructor (group: nat, priority: nat)
      ensures this.group == group && this.priority == priority
    {
      this.group := group;
      this.priority := priority;
      id, flow, next, tmp := 0, 0, null, null;
    }
  }

  /** The chain starting at head and following `next` is exactly the sequence. */
  ghost predicate Chained(head: Rule?, rules: seq<Rule>)
    reads rules`next
  {
    && head == (if rules == [] then null else rules[0])
    && forall i :: 0 <= i < |rules| ==> rules[i].next == Successor(rules, i)
  }

  ghost function Successor(rules: seq<Rule>, i: nat): Rule?
    requires i < |rules|
  {
    if i + 1 < |rules| then rules[i + 1] else null
  }

  ghost predicate Descending(rules: seq<Rule>)
    reads rules`id
  {
    forall i, j :: 0 <= i < j < |rules| ==> rules[i].id > rules[j].id
  }

  ghost predicate DistinctFlows(rules: seq<Rule>)
    reads rules`flow
  {
    forall i, j :: 0 <= i < j < |rules| ==> rules[i].flow != rules[j].flow
  }

  lemma PushChained(pf: Rule, head: Rule?, rules: seq<Rule>)
    requires Chained(head, rules) && pf.next == head
    ensures Chained(pf, [pf] + rules)
  {
    var all := [pf] + rules;
    forall i | 0 <= i < |all|
      ensures all[i].next == Successor(all, i)
    {
      if i > 0 {
        assert all[i] == rules[i - 1] && rules[i - 1].next == Successor(rules, i - 1);
      }
    }
  }

  lemma PushDescending(pf: Rule, rules: seq<Rule>)
    requires Descending(rules) && (rules != [] ==> rules[0].id < pf.id)
    ensures Descending([pf] + rules)
  {}

  lemma PushDistinct(pf: Rule, rules: seq<Rule>)
    requires DistinctFlows(rules) && forall r :: r in rules ==> r.flow != pf.flow
    ensures DistinctFlows([pf] + rules)
  {}

  /** The rules that are not gone, in their order. */
  ghost function Keep(rules: seq<Rule>, gone: set<Rule>): seq<Rule> {
    if rules == [] then []
    else
      var rest, last := Keep(rules[..|rules| - 1], gone), rules[|rules| - 1];
      if last in gone then rest else rest + [last]
  }

  lemma KeepStep(rules: seq<Rule>, j: nat, gone: set<Rule>)
    requires j < |rules|
    ensures Keep(rules[..j + 1], gone) == Keep(rules[..j], gone) + (if rules[j] in gone then [] else [rules[j]])
  {
    assert rules[..j + 1][..j] == rules[..j];
  }

  lemma {:induction false} KeepAdd(rules: seq<Rule>, gone: set<Rule>, r: Rule)
    requires r !in rules
    ensures Keep(rules, gone + {r}) == Keep(rules, gone)
  {
    if rules != [] {
      KeepAdd(rules[..|rules| - 1], gone, r);
    }
  }

  lemma {:induction false} KeepMembers(rules: seq<Rule>, gone: set<Rule>)
    ensures forall r :: r in Keep(rules, gone) <==> r in rules && r !in gone
    ensures forall i :: 0 <= i < |Keep(rules, gone)| ==> Keep(rules, gone)[i] in rules && Keep(rules, gone)[i] !in gone
  {
    if rules != [] {
      KeepMembers(rules[..|rules| - 1], gone);
      assert rules == rules[..|rules| - 1] + [rules[|rules| - 1]];
    }
  }

  lemma {:induction false} KeepAsSet(rules: seq<Rule>, gone: set<Rule>)
    requires forall r :: r in gone ==> r in rules
    ensures (set r | r in rules) == (set r | r in Keep(rules, gone)) + gone
    ensures forall r :: r in (set r | r in Keep(rules, gone)) ==> r in rules && r !in gone
  {
    KeepMembers(rules, gone);
    var all, left := set r | r in rules, set r | r in Keep(rules, gone);
    forall r | r in all
      ensures r in left + gone
    {
      assert r in Keep(rules, gone) <==> r in rules && r !in gone;
    }
    forall r | r in left
      ensures r in all && r !in gone
    {
      var i :| 0 <= i < |Keep(rules, gone)| && Keep(rules, gone)[i] == r;
    }
    forall r | r in gone
      ensures r in all
    {
      assert r in rules;
    }
  }

  ghost function FlowSet(rules: set<Rule>): set<Handle>
    reads rules`flow
  {
    set r | r in rules :: r.flow
  }

  ghost function Without(rules: seq<Rule>, k: nat): seq<Rule>
    requires k < |rules|
  {
    rules[..k] + rules[k + 1..]
  }

  lemma WithoutOrdered(rules: seq<Rule>, k: nat)
    requires k < |rules| && Descending(rules) && DistinctFlows(rules)
    ensures Descending(Without(rules, k)) && DistinctFlows(Without(rules, k))
  {}

  /** Once the predecessor of rule k skips it, the chain is the sequence without it. */
  lemma WithoutChained(head: Rule?, rules: seq<Rule>, k: nat)
    requires k < |rules|
    requires forall i :: 0 <= i < |rules| && i + 1 != k ==> rules[i].next == Successor(rules, i)
    requires if k == 0 then head == Successor(rules, 0)
             else head == rules[0] && rules[k - 1].next == Successor(rules, k)
    ensures Chained(head, Without(rules, k))
  {
    var w := Without(rules, k);
    forall i | 0 <= i < |w|
      ensures w[i].next == Successor(w, i)
    {
      var j := if i < k then i else i + 1;
      assert w[i] == rules[j];
      if i + 1 < |w| {
        assert w[i + 1] == rules[if i + 1 < k then i + 1 else i + 2];
      }
    }
  }

  lemma DescendingDistinct(rules: seq<Rule>)
    requires Descending(rules)
    ensures forall i, j :: 0 <= i < j < |rules| ==> rules[i] != rules[j]
  {
    forall i, j | 0 <= i < j < |rules|
      ensures rules[i] != rules[j]
    {
      assert rules[i].id > rules[j].id;
    }
  }

  class Port {
    const dev: Device
    var flowList: Rule?
    ghost var rules: seq<Rule>

    constructor (dev: Device)
      ensures this.dev == dev && Valid() && rules == []
    {
      this.dev := dev;
      flowList, rules := null, [];
    }

    /** Newest rule first, identifiers unique, every listed handle alive on the device. */
    ghost predicate Valid()
      reads this, rules, dev
    {
      && Chained(flowList, rules)
      && Descending(rules)
      && DistinctFlows(rules)
      && forall r :: r in rules ==> r.id <= UINT32_MAX && r.flow in dev.live
    }

    /** The device holds the listed rules and no others. */
    ghost predicate InStep()
      reads this, rules`flow, dev
    {
      dev.live == FlowSet(set r | r in rules)
    }

    /** port_flow_create(); `copies` says whether the rule could be copied. */
    method Create(group: nat, priority: nat, copies: bool) returns (ok: bool, ghost rollback: Option<bool>)
      requires Valid()
      modifies this, dev
      ensures Valid()
      ensures ok ==>
        && |rules| == |old(rules)| + 1 && rules[1..] == old(rules) && fresh(rules[0])
        && rules[0].id == (if old(rules) == [] then 0 else old(rules)[0].id + 1)
        && rules[0].group == group && rules[0].priority == priority
        && rules[0].flow !in old(dev.live) && dev.live == old(dev.live) + {rules[0].flow}
      ensures !ok ==> rules == old(rules)
      // the device is as before unless destroying the new rule again failed
      ensures !ok ==> (dev.live == old(dev.live) <==> rollback != Some(false))
      ensures !ok ==> dev.live >= old(dev.live)
      // it succeeds exactly when the device creates the rule, an id is left and the rule can be copied;
      // what was created otherwise is to be destroyed again
      ensures dev.made == old(dev.made) || dev.made == old(dev.made) + 1
      ensures ok <==> dev.made > old(dev.made) && copies && (old(rules) == [] || old(rules)[0].id < 0xFFFF_FFFF)
      ensures rollback.Some? <==> dev.made > old(dev.made) && !ok
      ensures dev.asked == old(dev.asked) + if rollback.Some? then 1 else 0
      ensures old(InStep()) && (ok || rollback != Some(false)) ==> InStep()
    {
      hide Descending, DistinctFlows, FlowSet, Chained;
      Head();
      rollback := None;
      var h := dev.Create();
      if h.None? {
        return false, rollback;
      }
      var id: nat := 0;
      assert forall r :: r in rules ==> r.flow != h.value;
      if flowList != null {
        if flowList.id == UINT32_MAX {
          var done := dev.Destroy(h.value);
          return false, Some(done);
        }
        id := flowList.id + 1;
      }
      if !copies {
        var done := dev.Destroy(h.value);
        return false, Some(done);
      }
      ghost var before := rules;
      Link(group, priority, id, h.value);
      FlowSetOfCons(rules[0], before);
      assert rules == [rules[0]] + before;
      ok := true;
    }

    lemma Head()
      requires Chained(flowList, rules)
      ensures flowList == if rules == [] then null else rules[0]
    {}

    lemma FlowSetOfCons(r: Rule, rest: seq<Rule>)
      ensures FlowSet(set x | x in [r] + rest) == {r.flow} + FlowSet(set x | x in rest)
    {
      assert (set x | x in [r] + rest) == {r} + set x | x in rest;
    }

    /** Puts a new rule in front of the list. */
    method Link(group: nat, priority: nat, id: nat, flow: Handle)
      requires Chained(flowList, rules) && Descending(rules) && DistinctFlows(rules)
      requires forall r :: r in rules ==> r.id <= UINT32_MAX && r.flow in dev.live && r.flow != flow
      requires flow in dev.live && id <= UINT32_MAX && (rules != [] ==> rules[0].id < id)
      modifies this
      ensures Valid()
      ensures |rules| == |old(rules)| + 1 && rules[1..] == old(rules) && fresh(rules[0])
      ensures rules[0].id == id && rules[0].flow == flow && rules[0].group == group && rules[0].priority == priority
    {
      hide Chained, Descending, DistinctFlows;
      var pf := new Rule(group, priority);
      pf.next := flowList;
      pf.id := id;
      pf.flow := flow;
      PushChained(pf, flowList, rules);
      PushDescending(pf, rules);
      PushDistinct(pf, rules);
      flowList := pf;
      rules := [pf] + rules;
    }

    /** The inner loop of port_flow_destroy(): destroys pf if it is asked for, retrying for every
        further mention after a refusal. */
    method TryDestroy(pf: Rule, rule: seq<nat>) returns (destroyed: bool, refused: bool)
      modifies dev
      ensures destroyed || refused ==> pf.id in rule
      ensures pf.id in rule ==> destroyed || refused
      ensures dev.live == if destroyed then old(dev.live) - {pf.flow} else old(dev.live)
      // the device is asked once for every mention until it agrees
      ensures !destroyed ==> dev.asked - old(dev.asked) == multiset(rule)[pf.id]
      ensures destroyed ==> 0 < dev.asked - old(dev.asked) <= multiset(rule)[pf.id]
      ensures refused <==> dev.refused != old(dev.refused)
      ensures Refusals(old(dev.refused), dev.refused, pf.flow, dev.asked - old(dev.asked) - if destroyed then 1 else 0)
    {
      hide Refusals;
      destroyed, refused := false, false;
      var i := 0;
      RefusedOnce(dev.refused, dev.refused, pf.flow, 0);
      while i != |rule|
        invariant 0 <= i <= |rule|
        invariant dev.live == old(dev.live) && !destroyed
        invariant refused ==> pf.id in rule
        invariant pf.id in rule[..i] ==> refused
        invariant dev.asked - old(dev.asked) == multiset(rule[..i])[pf.id]
        invariant refused <==> dev.asked > old(dev.asked)
        invariant dev.asked >= old(dev.asked)
        invariant Refusals(old(dev.refused), dev.refused, pf.flow, dev.asked - old(dev.asked))
      {
        assert rule[..i + 1] == rule[..i] + [rule[i]];
        assert rule == rule[..i + 1] + rule[i + 1..];
        if rule[i] == pf.id {
          ghost var before := dev.refused;
          var ok := dev.Destroy(pf.flow);
          if ok {
            RefusalsMean(old(dev.refused), before, pf.flow, dev.asked - old(dev.asked) - 1);
            destroyed := true;
            return;
          }
          RefusedOnce(old(dev.refused), before, pf.flow, dev.asked - old(dev.asked) - 1);
          refused := true;
        }
        i := i + 1;
      }
      assert rule[..i] == rule;
      RefusalsMean(old(dev.refused), dev.refused, pf.flow, dev.asked - old(dev.asked));
    }

    /** *tmp = pf->next, where tmp points into `prev` or to the head of the list. */
    method Unlink(prev: Rule?, ghost k: nat)
      requires Chained(flowList, rules) && Descending(rules) && DistinctFlows(rules)
      requires k < |rules| && prev == (if k == 0 then null else rules[k - 1])
      modifies this`flowList, this`rules, rules`next
      ensures rules == Without(old(rules), k)
      ensures Chained(flowList, rules) && Descending(rules) && DistinctFlows(rules)
    {
      hide Descending, DistinctFlows, Without;
      DescendingDistinct(rules);
      if prev == null {
        flowList := flowList.next;
      } else {
        prev.next := prev.next.next;
      }
      WithoutOrdered(rules, k);
      WithoutChained(flowList, rules, k);
      rules := Without(rules, k);
    }

    /** port_flow_destroy() */
    method Destroy(rule: seq<nat>) returns (ok: bool, ghost gone: set<Rule>)
      requires Valid()
      modifies this`flowList, this`rules, rules`next, dev
      ensures Valid()
      // what is left are the others, in the same order
      ensures rules == Keep(old(rules), gone)
      ensures forall r :: r in gone ==> r in old(rules) && r.id in rule
      // a rule that was asked for stays only if the device refused; the call fails if it ever did
      ensures old(dev.refused) <= dev.refused
      ensures forall r :: r in old(rules) && r.id in rule && r !in gone ==> r.flow in dev.refused[|old(dev.refused)|..]
      ensures ok <==> dev.refused == old(dev.refused)
      // the device lost exactly the rules that left the list
      ensures dev.live == old(dev.live) - FlowSet(gone)
      ensures old(InStep()) ==> InStep()
    {
      hide Keep, Descending, DistinctFlows, Chained, FlowSet, Walking, Accounted;
      ghost var orig, live, was := rules, dev.live, dev.refused;
      DescendingDistinct(orig);
      Start(orig, rule, live, was);
      ghost var k, prev;
      ok, gone, k, prev := Walk(orig, live, was, rule);
      Done(orig, |orig|, k, gone, prev);
      LiveLeft(orig, gone, rule, live, was);
      FlowsLeft(orig, gone);
    }

    /** The outer loop of port_flow_destroy() */
    method Walk(ghost orig: seq<Rule>, ghost live: set<Handle>, ghost was: seq<Handle>, rule: seq<nat>)
      returns (ok: bool, ghost gone: set<Rule>, ghost k: nat, prev: Rule?)
      requires Walking(orig, 0, 0, {}, null, flowList)
      requires Accounted(orig, 0, {}, rule, live, dev.live, was, dev.refused) && dev.refused == was
      modifies this`flowList, this`rules, orig`next, dev
      ensures Walking(orig, |orig|, k, gone, prev, null)
      ensures Accounted(orig, |orig|, gone, rule, live, dev.live, was, dev.refused)
      ensures ok <==> dev.refused == was
    {
      hide Walking, Accounted;
      ok, gone, k := true, {}, 0;
      ghost var j: nat := 0;
      var cur: Rule?;
      prev, cur := null, flowList;
      while cur != null
        invariant j <= |orig| && Walking(orig, j, k, gone, prev, cur)
        invariant Accounted(orig, j, gone, rule, live, dev.live, was, dev.refused)
        invariant ok <==> dev.refused == was
        decreases |orig| - j
      {
        Here(orig, j, k, gone, prev, cur);
        prev, cur, ok, k, gone := DestroyOne(orig, j, k, gone, live, was, rule, prev, cur, ok);
        j := j + 1;
      }
      Done(orig, j, k, gone, prev);
    }

    lemma FlowsLeft(orig: seq<Rule>, gone: set<Rule>)
      requires DistinctFlows(orig) && forall r :: r in gone ==> r in orig
      ensures FlowSet(set r | r in Keep(orig, gone)) == FlowSet(set r | r in orig) - FlowSet(gone)
    {
      KeepMembers(orig, gone);
      forall x | x in orig && x !in gone
        ensures x.flow !in FlowSet(gone)
      {
        if x.flow in FlowSet(gone) {
          var y :| y in gone && y.flow == x.flow;
          SameFlow(orig, x, y);
        }
      }
      KeepAsSet(orig, gone);
      var left := set r | r in Keep(orig, gone);
      FlowSetUnion(left, gone);
      FlowSetApart(left, gone);
    }

    lemma SameFlow(orig: seq<Rule>, x: Rule, y: Rule)
      requires DistinctFlows(orig) && x in orig && y in orig && x.flow == y.flow
      ensures x == y
    {
      var i :| 0 <= i < |orig| && orig[i] == x;
      var j :| 0 <= j < |orig| && orig[j] == y;
      assert !(i < j) && !(j < i);
    }

    lemma FlowSetApart(a: set<Rule>, b: set<Rule>)
      requires forall r :: r in a ==> r.flow !in FlowSet(b)
      ensures FlowSet(a) !! FlowSet(b)
    {}

    lemma FlowSetUnion(a: set<Rule>, b: set<Rule>)
      ensures FlowSet(a + b) == FlowSet(a) + FlowSet(b)
    {}

    /** Every rule seen so far that was asked for is gone or was refused, and the device lost the
        gone ones. */
    ghost predicate Accounted(orig: seq<Rule>, j: nat, gone: set<Rule>, rule: seq<nat>, live: set<Handle>,
                              now: set<Handle>, was: seq<Handle>, refused: seq<Handle>)
      requires j <= |orig|
      reads orig`id, orig`flow, gone`id, gone`flow
    {
      && DistinctFlows(orig)
      && (forall r :: r in orig ==> r.id <= UINT32_MAX && r.flow in live)
      && (forall r :: r in gone ==> r.id in rule)
      && was <= refused
      && (forall r :: r in orig[..j] && r.id in rule && r !in gone ==> r.flow in refused[|was|..])
      && now == live - FlowSet(gone)
    }

    /** One round of the outer loop of port_flow_destroy(). */
    method DestroyOne(ghost orig: seq<Rule>, ghost j: nat, ghost k: nat, ghost gone: set<Rule>, ghost live: set<Handle>,
                      ghost was: seq<Handle>, rule: seq<nat>, prev: Rule?, cur: Rule, ok: bool)
      returns (prev': Rule?, cur': Rule?, ok': bool, ghost k': nat, ghost gone': set<Rule>)
      requires j < |orig| && orig[j] == cur && cur !in gone && Walking(orig, j, k, gone, prev, cur)
      requires Accounted(orig, j, gone, rule, live, dev.live, was, dev.refused)
      requires ok <==> dev.refused == was
      modifies this`flowList, this`rules, orig`next, dev
      ensures Walking(orig, j + 1, k', gone', prev', cur')
      ensures Accounted(orig, j + 1, gone', rule, live, dev.live, was, dev.refused)
      ensures ok' <==> dev.refused == was
    {
      hide Keep, Descending, DistinctFlows, Chained, FlowSet, Walking;
      prev', cur', ok', k', gone' := prev, cur, ok, k, gone;
      assert orig[..j + 1] == orig[..j] + [cur];
      ghost var before := dev.refused;
      var destroyed, complained := TryDestroy(cur, rule);
      RefusalsMean(before, dev.refused, cur.flow, |dev.refused| - |before|);
      assert forall x :: x in before[|was|..] ==> x in dev.refused[|was|..];
      if complained {
        ok' := false;
      }
      if destroyed {
        FlowSetAdd(gone, cur);
        gone' := gone + {cur};
        cur' := Skip(orig, j, k, gone, prev, cur);
      } else {
        Pass(orig, j, k, gone, prev, cur);
        prev', cur', k' := cur, cur.next, k + 1;
      }
    }

    /** The rules that stay still have live handles: flows are not shared. */
    lemma LiveLeft(orig: seq<Rule>, gone: set<Rule>, rule: seq<nat>, live: set<Handle>, was: seq<Handle>)
      requires rules == Keep(orig, gone) && Accounted(orig, |orig|, gone, rule, live, dev.live, was, dev.refused)
      requires forall r :: r in gone ==> r in orig
      ensures forall r :: r in rules ==> r.id <= UINT32_MAX && r.flow in dev.live
      ensures forall r :: r in gone ==> r.id in rule
      ensures was <= dev.refused
      ensures forall r :: r in orig && r.id in rule && r !in gone ==> r.flow in dev.refused[|was|..]
      ensures dev.live == live - FlowSet(gone) && DistinctFlows(orig)
    {
      KeepMembers(orig, gone);
      assert orig[..|orig|] == orig;
    }

    /** Where the walk of port_flow_destroy() stands: rules before j were dealt with, k of them are
        left, `prev` is the last of these and cur the next rule. */
    ghost predicate Walking(orig: seq<Rule>, j: nat, k: nat, gone: set<Rule>, prev: Rule?, cur: Rule?)
      reads this, rules`next, rules`id, rules`flow
    {
      && j <= |orig|
      && (forall x, y :: 0 <= x < y < |orig| ==> orig[x] != orig[y])
      && rules == Keep(orig[..j], gone) + orig[j..] && k == |Keep(orig[..j], gone)|
      && cur == (if j < |orig| then orig[j] else null)
      && prev == (if k == 0 then null else rules[k - 1])
      && Chained(flowList, rules) && Descending(rules) && DistinctFlows(rules)
      && (forall r :: r in gone ==> r in orig[..j])
      && forall r :: r in rules ==> r in orig
    }

    lemma Start(orig: seq<Rule>, rule: seq<nat>, live: set<Handle>, was: seq<Handle>)
      requires rules == orig && Chained(flowList, rules) && Descending(rules) && DistinctFlows(rules)
      requires forall x, y :: 0 <= x < y < |orig| ==> orig[x] != orig[y]
      requires forall r :: r in orig ==> r.id <= UINT32_MAX && r.flow in live
      ensures Walking(orig, 0, 0, {}, null, flowList)
      ensures Accounted(orig, 0, {}, rule, live, live, was, was)
    {
      assert Keep(orig[..0], {}) == [] && orig[0..] == orig;
    }

    lemma FlowSetAdd(gone: set<Rule>, r: Rule)
      ensures FlowSet(gone + {r}) == FlowSet(gone) + {r.flow}
    {}

    lemma Here(orig: seq<Rule>, j: nat, k: nat, gone: set<Rule>, prev: Rule?, cur: Rule)
      requires Walking(orig, j, k, gone, prev, cur)
      ensures j < |orig| && orig[j] == cur && cur !in gone
      ensures forall r :: r in rules ==> r in orig
    {
      assert cur !in orig[..j];
    }

    lemma Done(orig: seq<Rule>, j: nat, k: nat, gone: set<Rule>, prev: Rule?)
      requires Walking(orig, j, k, gone, prev, null)
      ensures j == |orig| && rules == Keep(orig, gone)
      ensures Chained(flowList, rules) && Descending(rules) && DistinctFlows(rules)
      ensures forall r :: r in gone ==> r in orig
      ensures forall x, y :: 0 <= x < y < |orig| ==> orig[x] != orig[y]
    {
      assert orig[..j] == orig && orig[j..] == [];
    }

    lemma Pass(orig: seq<Rule>, j: nat, k: nat, gone: set<Rule>, prev: Rule?, cur: Rule)
      requires Walking(orig, j, k, gone, prev, cur)
      ensures Walking(orig, j + 1, k + 1, gone, cur, cur.next)
    {
      hide Descending, DistinctFlows, Keep;
      assert orig[..j + 1] == orig[..j] + [orig[j]];
      KeepStep(orig, j, gone);
      assert orig[j..] == [orig[j]] + orig[j + 1..];
      assert rules[k] == cur;
      if j + 1 < |orig| {
        assert rules[k + 1] == orig[j + 1];
      }
    }

    method Skip(ghost orig: seq<Rule>, ghost j: nat, ghost k: nat, ghost gone: set<Rule>, prev: Rule?, cur: Rule)
      returns (cur': Rule?)
      requires Walking(orig, j, k, gone, prev, cur)
      modifies this`flowList, this`rules, orig`next
      ensures Walking(orig, j + 1, k, gone + {cur}, prev, cur')
    {
      hide Walking, Descending, DistinctFlows, Keep, Chained, Without;
      ghost var left := SkipFacts(orig, j, k, gone, prev, cur);
      Unlink(prev, k);
      cur' := if prev == null then flowList else prev.next;
      Skipped(orig, j, k, gone, left, prev, cur, cur');
    }

    lemma SkipFacts(orig: seq<Rule>, j: nat, k: nat, gone: set<Rule>, prev: Rule?, cur: Rule) returns (left: seq<Rule>)
      requires Walking(orig, j, k, gone, prev, cur)
      ensures j < |orig| && orig[j] == cur && forall x, y :: 0 <= x < y < |orig| ==> orig[x] != orig[y]
      ensures left == Keep(orig[..j + 1], gone + {cur}) && k == |left|
      ensures k < |rules| && Without(rules, k) == left + orig[j + 1..]
      ensures Chained(flowList, rules) && Descending(rules) && DistinctFlows(rules)
      ensures prev == (if k == 0 then null else left[k - 1]) == (if k == 0 then null else rules[k - 1])
      ensures forall r :: r in gone ==> r in orig[..j]
      ensures forall r :: r in left ==> r in orig
      ensures forall i :: 0 <= i < |rules| ==> exists x :: 0 <= x < |orig| && orig[x] == rules[i]
    {
      hide Descending, DistinctFlows, Keep, Chained;
      left := Keep(orig[..j], gone);
      KeepStep(orig, j, gone + {cur});
      KeepAdd(orig[..j], gone, cur);
      assert orig[j..] == [orig[j]] + orig[j + 1..];
      forall i | 0 <= i < |rules|
        ensures exists x :: 0 <= x < |orig| && orig[x] == rules[i]
      {
        assert rules[i] in rules && rules[i] in orig;
      }
      forall r | r in left
        ensures r in orig
      {
        assert r in rules;
      }
    }

    lemma Skipped(orig: seq<Rule>, j: nat, k: nat, gone: set<Rule>, left: seq<Rule>, prev: Rule?, cur: Rule,
        cur': Rule?)
      requires j < |orig| && orig[j] == cur && forall x, y :: 0 <= x < y < |orig| ==> orig[x] != orig[y]
      requires left == Keep(orig[..j + 1], gone + {cur}) && k == |left|
      requires rules == left + orig[j + 1..]
      requires Chained(flowList, rules) && Descending(rules) && DistinctFlows(rules)
      requires prev == (if k == 0 then null else left[k - 1])
      requires cur' == if prev == null then flowList else prev.next
      requires forall r :: r in gone ==> r in orig[..j]
      requires forall r :: r in left ==> r in orig
      ensures Walking(orig, j + 1, k, gone + {cur}, prev, cur')
    {
      hide Descending, DistinctFlows, Keep;
      assert orig[..j + 1] == orig[..j] + [cur];
      if k > 0 {
        assert prev == rules[k - 1] && prev.next == Successor(rules, k - 1);
      }
      if j + 1 < |orig| {
        assert rules[k] == orig[j + 1];
      }
    }

    /** port_flow_flush(): the list is emptied even when the device refuses, except for an invalid
        port. */
    method Flush(portInvalid: bool) returns (ok: bool)
      requires Valid()
      modifies this`flowList, this`rules, dev
      ensures rules == (if !ok && portInvalid then old(rules) else [])
      ensures Chained(flowList, rules)
      ensures ok ==> dev.live == {} && InStep()
      ensures rules == [] ==> Valid()
      // a device that refused may have kept rules that are no longer listed
      ensures dev.live <= old(dev.live)
      ensures rules == [] ==> (InStep() <==> dev.live == {})
      ensures rules != [] && old(InStep()) ==> (InStep() <==> dev.live == old(dev.live))
    {
      ok := dev.Flush();
      if !ok && portInvalid {
        return;
      }
      FreeList();
    }

    method FreeList()
      requires Chained(flowList, rules)
      modifies this`flowList, this`rules
      ensures flowList == null && rules == []
    {
      while flowList != null
        invariant Chained(flowList, rules)
        decreases |rules|
      {
        assert rules[0].next == Successor(rules, 0);
        Tail(rules);
        flowList := flowList.next;
        rules := rules[1..];
      }
    }

    lemma Tail(all: seq<Rule>)
      requires all != [] && Chained(all[0], all)
      ensures Chained(all[0].next, all[1..])
    {
      forall i | 0 <= i < |all| - 1
        ensures all[1..][i].next == Successor(all[1..], i)
      {
        assert all[1..][i] == all[i + 1];
        assert all[i + 1].next == Successor(all, i + 1);
      }
      assert all[0].next == Successor(all, 0);
    }
  }
}
