/** port_flow_list(): the rules of a port sorted by group, priority and identifier, chained through
    their `tmp` links while the list proper stays as it is.
  */
module FlowRuleListing {

  import opened FlowRules

  /** The order of the listing. */
  ghost predicate Before(a: Rule, b: Rule)
    reads a`id, b`id
  {
    || a.group < b.group
    || (a.group == b.group && a.priority < b.priority)
    || (a.group == b.group && a.priority == b.priority && a.id < b.id)
  }

  predicate Wanted(r: Rule, groups: seq<nat>) {
    groups == [] || r.group in groups
  }

  ghost function Filter(rules: seq<Rule>, groups: seq<nat>): seq<Rule> {
    if rules == [] then []
    else
      var rest, last := Filter(rules[..|rules| - 1], groups), rules[|rules| - 1];
      if Wanted(last, groups) then rest + [last] else rest
  }

  ghost predicate Ascending(chain: seq<Rule>)
    reads chain`id
  {
    forall i, j :: 0 <= i < j < |chain| ==> Before(chain[i], chain[j])
  }

  /** The chain through `tmp` starting at head. */
  ghost predicate Listed(head: Rule?, chain: seq<Rule>)
    reads chain`tmp
  {
    && head == (if chain == [] then null else chain[0])
    && forall i :: 0 <= i < |chain| ==> chain[i].tmp == Successor(chain, i)
  }

  /** A rule belongs where everything before it is smaller and the next one is not. */
  lemma {:induction false} InsertAscending(chain: seq<Rule>, k: nat, pf: Rule)
    requires Ascending(chain) && k <= |chain|
    requires forall i :: 0 <= i < k ==> Before(chain[i], pf)
    requires k < |chain| ==> !Before(chain[k], pf)
    requires forall r :: r in chain ==> r.id != pf.id
    ensures Ascending(chain[..k] + [pf] + chain[k..])
  {
    var c := chain[..k] + [pf] + chain[k..];
    forall i, j | 0 <= i < j < |c|
      ensures Before(c[i], c[j])
    {
      if i == k {
        assert c[j] == chain[j - 1];
        assert chain[k] in chain;
        assert j - 1 > k ==> Before(chain[k], chain[j - 1]);
      } else if j == k {
        assert c[i] == chain[i];
      } else {
        var a, b := if i < k then i else i - 1, if j < k then j else j - 1;
        assert c[i] == chain[a] && c[j] == chain[b];
      }
    }
  }

  lemma InsertListed(head: Rule?, chain: seq<Rule>, k: nat, pf: Rule)
    requires k <= |chain|
    requires forall i :: 0 <= i < |chain| && i + 1 != k ==> chain[i].tmp == Successor(chain, i)
    requires pf.tmp == (if k < |chain| then chain[k] else null)
    requires if k == 0 then head == pf else head == chain[0] && chain[k - 1].tmp == pf
    ensures Listed(head, chain[..k] + [pf] + chain[k..])
  {
    var c := chain[..k] + [pf] + chain[k..];
    forall i | 0 <= i < |c|
      ensures c[i].tmp == Successor(c, i)
    {
      if i < k {
        assert c[i] == chain[i];
      } else if i > k {
        assert c[i] == chain[i - 1];
      }
      if i + 1 < |c| {
        assert c[i + 1] == if i + 1 < k then chain[i + 1] else if i + 1 == k then pf else chain[i];
      }
    }
  }

  /** The insertion point in the listing and the link that leads to it (null for the head). */
  method FindPlace(list: Rule?, ghost chain: seq<Rule>, pf: Rule) returns (prev: Rule?, cur: Rule?, ghost k: nat)
    requires Listed(list, chain)
    ensures k <= |chain|
    ensures forall i :: 0 <= i < k ==> Before(chain[i], pf)
    ensures k < |chain| ==> !Before(chain[k], pf)
    ensures prev == (if k == 0 then null else chain[k - 1])
    ensures cur == (if k < |chain| then chain[k] else null)
  {
    prev, cur, k := null, list, 0;
    while cur != null
      invariant k <= |chain|
      invariant forall i :: 0 <= i < k ==> Before(chain[i], pf)
      invariant prev == (if k == 0 then null else chain[k - 1])
      invariant cur == (if k < |chain| then chain[k] else null)
      decreases |chain| - k
    {
      if pf.group > cur.group
        || (pf.group == cur.group && pf.priority > cur.priority)
        || (pf.group == cur.group && pf.priority == cur.priority && pf.id > cur.id)
      {
        assert cur.tmp == Successor(chain, k);
        prev, cur, k := cur, cur.tmp, k + 1;
      } else {
        break;
      }
    }
  }

  /** pf->tmp = *tmp; *tmp = pf */
  method LinkIn(list: Rule?, ghost chain: seq<Rule>, pf: Rule, prev: Rule?, cur: Rule?, ghost k: nat)
    returns (list': Rule?)
    requires Listed(list, chain) && k <= |chain| && pf !in chain
    requires forall i, j :: 0 <= i < j < |chain| ==> chain[i] != chain[j]
    requires prev == (if k == 0 then null else chain[k - 1])
    requires cur == (if k < |chain| then chain[k] else null)
    modifies pf`tmp, chain`tmp
    ensures Listed(list', chain[..k] + [pf] + chain[k..])
  {
    pf.tmp := cur;
    list' := list;
    if prev == null {
      list' := pf;
    } else {
      prev.tmp := pf;
    }
    InsertListed(list', chain, k, pf);
  }

  method Insert(list: Rule?, ghost chain: seq<Rule>, pf: Rule) returns (list': Rule?, ghost chain': seq<Rule>)
    requires Listed(list, chain) && Ascending(chain)
    requires forall r :: r in chain ==> r.id != pf.id
    modifies pf`tmp, chain`tmp
    ensures Listed(list', chain') && Ascending(chain')
    ensures multiset(chain') == multiset(chain) + multiset{pf}
  {
    hide Ascending, Before, Listed;
    var prev, cur;
    ghost var k;
    prev, cur, k := FindPlace(list, chain, pf);
    AscendingDistinct(chain);
    InsertAscending(chain, k, pf);
    list' := LinkIn(list, chain, pf, prev, cur, k);
    chain' := chain[..k] + [pf] + chain[k..];
    InsertedMultiset(chain, k, pf);
  }

  lemma InsertedMultiset(chain: seq<Rule>, k: nat, pf: Rule)
    requires k <= |chain|
    ensures multiset(chain[..k] + [pf] + chain[k..]) == multiset(chain) + multiset{pf}
  {
    assert chain == chain[..k] + chain[k..];
  }

  lemma AscendingDistinct(chain: seq<Rule>)
    requires Ascending(chain)
    ensures forall i, j :: 0 <= i < j < |chain| ==> chain[i] != chain[j]
  {
    forall i, j | 0 <= i < j < |chain|
      ensures chain[i] != chain[j]
    {
      assert Before(chain[i], chain[j]);
    }
  }

  lemma FilterStep(rules: seq<Rule>, j: nat, groups: seq<nat>)
    requires j < |rules|
    ensures Filter(rules[..j + 1], groups)
         == if Wanted(rules[j], groups) then Filter(rules[..j], groups) + [rules[j]] else Filter(rules[..j], groups)
  {
    assert rules[..j + 1][..j] == rules[..j];
  }

  lemma {:induction false} FilterMembers(rules: seq<Rule>, groups: seq<nat>)
    ensures forall r :: r in Filter(rules, groups) <==> r in rules && Wanted(r, groups)
  {
    if rules != [] {
      FilterMembers(rules[..|rules| - 1], groups);
      assert rules == rules[..|rules| - 1] + [rules[|rules| - 1]];
    }
  }

  /** The group filter of the source: a linear search through the wanted groups. */
  method GroupWanted(r: Rule, groups: seq<nat>) returns (wanted: bool)
    ensures wanted <==> Wanted(r, groups)
  {
    if |groups| == 0 {
      return true;
    }
    var i := 0;
    while i != |groups|
      invariant 0 <= i <= |groups| && r.group !in groups[..i]
    {
      if r.group == groups[i] {
        return true;
      }
      assert groups[..i + 1] == groups[..i] + [groups[i]];
      i := i + 1;
    }
    assert groups[..i] == groups;
    wanted := false;
  }

  /** port_flow_list() up to the printing. */
  method List(port: Port, groups: seq<nat>) returns (list: Rule?, ghost chain: seq<Rule>)
    requires port.Valid()
    modifies port.rules`tmp
    ensures Listed(list, chain) && Ascending(chain)
    // the chain holds exactly the rules of the wanted groups, each once
    ensures multiset(chain) == multiset(Filter(port.rules, groups))
    ensures forall r :: r in chain <==> r in port.rules && (groups == [] || r.group in groups)
    // by group, then priority, then identifier
    ensures forall i, j :: 0 <= i < j < |chain| ==>
              && chain[i].group <= chain[j].group
              && (chain[i].group == chain[j].group ==>
                    && chain[i].priority <= chain[j].priority
                    && (chain[i].priority == chain[j].priority ==> chain[i].id < chain[j].id))
    // the list proper is untouched
    ensures port.Valid() && port.rules == old(port.rules)
  {
    hide Filter, Ascending, Chained, Listed, Descending, DistinctFlows;
    ghost var rules: seq<Rule>, j: nat := port.rules, 0;
    EmptyListing(rules, groups);
    list, chain := null, [];
    var pf := port.flowList;
    HeadOf(port.flowList, rules);
    while pf != null
      invariant port.Valid() && port.rules == rules
      invariant j <= |rules| && pf == (if j < |rules| then rules[j] else null)
      invariant Listed(list, chain) && Ascending(chain)
      invariant multiset(chain) == multiset(Filter(rules[..j], groups))
      decreases |rules| - j
    {
      NextOf(port.flowList, rules, j);
      FilterStep(rules, j, groups);
      var wanted := GroupWanted(pf, groups);
      if wanted {
        ListedSoFar(rules, j, groups, chain);
        list, chain := Insert(list, chain, pf);
      }
      pf := pf.next;
      j := j + 1;
    }
    assert rules[..j] == rules;
    FilterMembers(rules, groups);
    SameMembers(chain, Filter(rules, groups));
    AscendingMeans(chain);
  }

  lemma SameMembers(a: seq<Rule>, b: seq<Rule>)
    requires multiset(a) == multiset(b)
    ensures forall r :: r in a <==> r in b
  {
    forall r
      ensures r in a <==> r in b
    {
      assert r in a <==> r in multiset(a);
    }
  }

  lemma AscendingMeans(chain: seq<Rule>)
    requires Ascending(chain)
    ensures forall i, j :: 0 <= i < j < |chain| ==>
              && chain[i].group <= chain[j].group
              && (chain[i].group == chain[j].group ==>
                    && chain[i].priority <= chain[j].priority
                    && (chain[i].priority == chain[j].priority ==> chain[i].id < chain[j].id))
  {}

  lemma EmptyListing(rules: seq<Rule>, groups: seq<nat>)
    ensures Filter(rules[..0], groups) == [] && Listed(null, []) && Ascending([])
  {}

  lemma HeadOf(head: Rule?, rules: seq<Rule>)
    requires Chained(head, rules)
    ensures head == if 0 < |rules| then rules[0] else null
  {}

  lemma NextOf(head: Rule?, rules: seq<Rule>, j: nat)
    requires Chained(head, rules) && j < |rules|
    ensures rules[j].next == if j + 1 < |rules| then rules[j + 1] else null
  {
    assert rules[j].next == Successor(rules, j);
  }

  lemma ListedSoFar(rules: seq<Rule>, j: nat, groups: seq<nat>, chain: seq<Rule>)
    requires j < |rules| && Descending(rules)
    requires multiset(chain) == multiset(Filter(rules[..j], groups))
    ensures forall r :: r in chain ==> r in rules && r.id != rules[j].id
    ensures forall i :: 0 <= i < |chain| ==> exists x :: 0 <= x < |rules| && rules[x] == chain[i]
  {
    FilterMembers(rules[..j], groups);
    forall r | r in chain
      ensures r in rules && r.id != rules[j].id
    {
      assert r in multiset(chain);
      assert r in Filter(rules[..j], groups);
      var x :| 0 <= x < j && rules[..j][x] == r;
      assert rules[x] == r && rules[x].id > rules[j].id;
    }
    forall i | 0 <= i < |chain|
      ensures exists x :: 0 <= x < |rules| && rules[x] == chain[i]
    {
      assert chain[i] in chain;
    }
  }
}
