/** The token table of the flow command, and what makes a table fit for the parser.

    A token says which lists of tokens may follow it and which arguments those will need. Every
    list carries the kind of place it stands for; a kind fixes what its tokens may do.
  */
module FlowTokens {

  import opened BitFill
  import opened Optional

  const CTX_STACK_SIZE: nat := 16

  // Token indices the code itself refers to (enum index).
  const ZERO: nat := 0
  const END: nat := 1
  const PREFIX: nat := 4
  const FLOW: nat := 14
  const VALIDATE: nat := 15
  const CREATE: nat := 16
  const DESTROY: nat := 17
  const FLUSH: nat := 18
  const QUERY: nat := 19
  const LIST: nat := 20
  const ISOLATE: nat := 21
  const GROUP: nat := 25
  const PRIORITY: nat := 26
  const INGRESS: nat := 27
  const EGRESS: nat := 28
  const TRANSFER: nat := 29
  const PATTERN: nat := 30
  const ITEM_PARAM_IS: nat := 31
  const ITEM_PARAM_SPEC: nat := 32
  const ITEM_PARAM_LAST: nat := 33
  const ITEM_PARAM_MASK: nat := 34
  const ITEM_PARAM_PREFIX: nat := 35
  const ACTIONS: nat := 138
  const ACTION_RSS_FUNC_DEFAULT: nat := 157
  const ACTION_RSS_FUNC_TOEPLITZ: nat := 158
  const ACTION_RSS_FUNC_SIMPLE_XOR: nat := 159
  const ACTION_RSS_TYPE: nat := 161
  const ACTION_RSS_QUEUE: nat := 165

  /** RTE_FLOW_ITEM_TYPE_END and RTE_FLOW_ACTION_TYPE_END */
  const TYPE_END: nat := 0

  /** sizeof(struct action_rss_data): conf, then 64 key bytes, then 32 queue indices */
  const RSS_SIZE: nat := 168
  const ACTION_RSS_QUEUE_NUM: nat := 32

  const U64: nat := 0x1_0000_0000_0000_0000

  type word64 = x: nat | x < 0x1_0000_0000_0000_0000

  datatype Arg = Arg(hton: bool, sign: bool, bounded: bool, min: word64, max: word64,
                     offset: nat, size: nat, mask: Option<seq<bv8>>)

  datatype Call =
    | Default | Init | Vc | VcSpec | VcConf | VcActionRss | RssFunc | RssType | RssQueue
    | Destroy | Flush | Query | List | Isolate
    | Int | Prefix | Boolean | String | Mac | Ipv4 | Ipv6 | Port | Action

  /** Private data of an item or an action: its type and the size of its structure. */
  datatype Priv = Priv(kind: nat, size: nat)

  datatype Token = Token(name: string, next: seq<TokenList>, args: seq<Arg>, call: Call, priv: Option<Priv>)

  datatype TokenList = TokenList(kind: Kind, toks: seq<nat>)

  datatype Kind =
    | Entry | Command | Attr | Items | ItemField(size: nat) | Param(prefix: bool)
    | ToActions | Actions | ActionField(size: nat, rss: bool) | Rss | Rules | Groups
    | Value(arity: nat)

  type Table = nat -> Token

  /** How many arguments a callback takes from the stack. */
  function Pops(c: Call): nat {
    match c
    case Int | Prefix | Boolean | Mac | Ipv4 | Ipv6 | Port | Action => 1
    case String => 3
    case _ => 0
  }

  function Arity(k: Kind): nat {
    if k.Value? then k.arity else 0
  }

  // ----- well-formed tables -----

  /** A bit-mask covers its field and names no more bits than a value has. */
  predicate MaskOk(a: Arg) {
    a.mask.Some? ==> |a.mask.value| == a.size && |Positions(a.mask.value, a.hton)| <= 64
  }

  predicate Within(a: Arg, lo: nat, hi: nat) {
    lo <= a.offset && a.offset + a.size <= hi && MaskOk(a)
  }

  predicate AllWithin(args: seq<Arg>, lo: nat, hi: nat) {
    forall j :: 0 <= j < |args| ==> Within(args[j], lo, hi)
  }

  /** The fields of the output header that values may be written to: the port, and behind it the
      attributes, or the rule and action type of a query, or the switch of the isolated mode. */
  predicate HeaderField(a: Arg) {
    Within(a, 4, 6) || Within(a, 8, 20)
  }

  predicate Nexts(t: Token, kinds: seq<Kind>) {
    |t.next| == |kinds| && forall j :: 0 <= j < |kinds| ==> t.next[j].kind == kinds[j]
  }

  predicate Plain(t: Token) {
    t.args == []
  }

  /** Arguments of the values behind a field: a string stores an address of 8 bytes at most. */
  predicate FieldArgs(t: Token, a: nat, size: nat) {
    (a == 1 || a == 3) && |t.args| == a && AllWithin(t.args, 0, size) && (a == 3 ==> t.args[0].size <= 8)
  }

  predicate CommandFits(i: nat, t: Token) {
    if i == VALIDATE || i == CREATE then
      t.call == Vc && Nexts(t, [Attr, Value(1)]) && |t.args| == 1 && AllWithin(t.args, 4, 6)
    else if i == DESTROY then
      t.call == Destroy && Nexts(t, [Rules, Value(1)]) && |t.args| == 1 && AllWithin(t.args, 4, 6)
    else if i == LIST then
      t.call == List && Nexts(t, [Groups, Value(1)]) && |t.args| == 1 && AllWithin(t.args, 4, 6)
    else if i == FLUSH then
      t.call == Flush && Nexts(t, [Value(1)]) && |t.args| == 1 && AllWithin(t.args, 4, 6)
    else if i == QUERY then
      t.call == Query && Nexts(t, [Value(1), Value(1), Value(1)]) && |t.args| == 3
      && forall j :: 0 <= j < 3 ==> HeaderField(t.args[j])
    else
      i == ISOLATE && t.call == Isolate && Nexts(t, [Value(1), Value(1)]) && |t.args| == 2
      && forall j :: 0 <= j < 2 ==> HeaderField(t.args[j])
  }

  predicate AttrFits(i: nat, t: Token) {
    t.call == Vc &&
    if i == GROUP || i == PRIORITY then
      Nexts(t, [Attr, Value(1)]) && |t.args| == 1 && AllWithin(t.args, 0, 12)
    else if i == INGRESS || i == EGRESS || i == TRANSFER then
      Nexts(t, [Attr]) && Plain(t)
    else
      i == PATTERN && Nexts(t, [Items]) && Plain(t)
  }

  predicate Special(i: nat) {
    i in {VALIDATE, CREATE, GROUP, PRIORITY, INGRESS, EGRESS, TRANSFER, PATTERN, ACTIONS}
  }

  predicate ItemFits(i: nat, t: Token) {
    && t.call == Vc && !Special(i) && t.priv.Some? && Plain(t)
    && if t.priv.value.kind == TYPE_END then t.priv.value.size == 0 && Nexts(t, [ToActions])
       else Nexts(t, [ItemField(t.priv.value.size)])
  }

  predicate ItemFieldFits(size: nat, t: Token) {
    && t.call == Default
    && if |t.next| == 1 then Nexts(t, [Items]) && Plain(t)
       else
         && |t.next| == 3 && t.next[0].kind == ItemField(size) && t.next[1].kind.Value? && t.next[2].kind.Param?
         && FieldArgs(t, t.next[1].kind.arity, size)
         && (t.next[2].kind.prefix ==> t.next[1].kind.arity == 1)
  }

  predicate ParamFits(i: nat, t: Token, prefix: bool) {
    && t.call == VcSpec && t.next == [] && Plain(t)
    && (i in {ITEM_PARAM_IS, ITEM_PARAM_SPEC, ITEM_PARAM_LAST, ITEM_PARAM_MASK} || (prefix && i == ITEM_PARAM_PREFIX))
  }

  predicate ActionFits(i: nat, t: Token) {
    && !Special(i) && t.priv.Some? && Plain(t) && t.priv.value.size < 0x1_0000
    && if t.priv.value.kind == TYPE_END then t.call == Vc && t.priv.value.size == 0 && t.next == []
       else if t.call == VcActionRss then t.priv.value.size == RSS_SIZE && Nexts(t, [ActionField(RSS_SIZE, true)])
       else t.call == Vc && Nexts(t, [ActionField(t.priv.value.size, false)])
  }

  predicate ActionFieldFits(size: nat, rss: bool, t: Token) {
    if |t.next| == 1 then t.call == Default && Nexts(t, [Actions]) && Plain(t)
    else
      && (t.call == VcConf || (rss && t.call == Default))
      && |t.next| == 2 && t.next[0].kind == ActionField(size, rss)
      && if t.next[1].kind.Rss? then rss && Plain(t)
         else t.next[1].kind.Value? && FieldArgs(t, t.next[1].kind.arity, size)
  }

  predicate RssFits(i: nat, t: Token) {
    && t.next == [] && Plain(t)
    && (t.call == RssFunc
        || (t.call == RssType && i == ACTION_RSS_TYPE)
        || (t.call == RssQueue && i == ACTION_RSS_QUEUE))
  }

  predicate EntriesFit(i: nat, t: Token, k: Kind, c: Call) {
    if i == END then t.call == Default && t.name == ""
    else t.call == c && Nexts(t, [k, Value(1)]) && |t.args| == 1 && AllWithin(t.args, 0, 4)
  }

  predicate ValueFits(t: Token, a: nat) {
    a > 0 && Pops(t.call) == a && t.next == [] && Plain(t)
  }

  predicate TokenFits(k: Kind, i: nat, t: Token) {
    match k
    case Entry => i == FLOW && t.call == Init && Nexts(t, [Command]) && Plain(t)
    case Command => CommandFits(i, t)
    case Attr => AttrFits(i, t)
    case Items => ItemFits(i, t)
    case ItemField(size) => ItemFieldFits(size, t)
    case Param(prefix) => ParamFits(i, t, prefix)
    case ToActions => i == ACTIONS && t.call == Vc && Nexts(t, [Actions]) && Plain(t)
    case Actions => ActionFits(i, t)
    case ActionField(size, rss) => ActionFieldFits(size, rss, t)
    case Rss => RssFits(i, t)
    case Rules => EntriesFit(i, t, Rules, Destroy)
    case Groups => EntriesFit(i, t, Groups, List)
    case Value(a) => ValueFits(t, a)
  }

  /** Callbacks that look at more than the name of their token. */
  predicate ByName(c: Call) {
    Pops(c) == 0 && c != RssType && c != RssQueue
  }

  /** The tokens of a list fit its kind; where there is a choice it is made by name. */
  ghost predicate ListOk(toks: Table, l: TokenList) {
    && (forall j :: 0 <= j < |l.toks| ==> TokenFits(l.kind, l.toks[j], toks(l.toks[j])) && l.toks[j] != ZERO)
    && (END in l.toks ==> l.kind.Rules? || l.kind.Groups?)
    && (|l.toks| > 1 ==>
          && (forall j :: 0 <= j < |l.toks| ==> ByName(toks(l.toks[j]).call))
          && (forall i, j :: 0 <= i < j < |l.toks| ==> toks(l.toks[i]).name != toks(l.toks[j]).name))
  }

  const PrefixList := TokenList(Value(1), [PREFIX])

  ghost predicate WellFormed(toks: Table) {
    && toks(ZERO).next != [] && toks(ZERO).next[0].kind == Entry
    && ListOk(toks, PrefixList)
    && forall i, j :: 0 <= j < |toks(i).next| ==> ListOk(toks, toks(i).next[j])
  }

  // ----- the two stacks -----

  function Flat(owed: seq<seq<Arg>>): seq<Arg> {
    if owed == [] then [] else Flat(owed[..|owed| - 1]) + owed[|owed| - 1]
  }

  /** The pending arguments are those of the pending lists, in the same order. */
  ghost predicate Synced(next: seq<TokenList>, args: seq<Arg>, owed: seq<seq<Arg>>) {
    && |owed| == |next| && args == Flat(owed)
    && forall j :: 0 <= j < |next| ==> |owed[j]| == Arity(next[j].kind)
  }

  /** How the arguments of a token go to the lists that follow it. */
  function Split(next: seq<TokenList>, args: seq<Arg>): seq<seq<Arg>>
    decreases |next|
  {
    if next == [] then []
    else
      var n := Arity(next[|next| - 1].kind);
      if n > |args| then Split(next[..|next| - 1], []) + [args]
      else Split(next[..|next| - 1], args[..|args| - n]) + [args[|args| - n..]]
  }

  lemma {:induction false} FlatConcat(a: seq<seq<Arg>>, b: seq<seq<Arg>>)
    ensures Flat(a + b) == Flat(a) + Flat(b)
    decreases |b|
  {
    if b == [] {
      assert a + b == a;
    } else {
      var n := |b| - 1;
      FlatConcat(a, b[..n]);
      assert (a + b)[..|a + b| - 1] == a + b[..n];
    }
  }

  /** The top list's arguments are the last ones of the stack. */
  lemma TopArgs(next: seq<TokenList>, args: seq<Arg>, owed: seq<seq<Arg>>)
    requires Synced(next, args, owed) && next != []
    ensures var n := |next| - 1;
            && Arity(next[n].kind) <= |args|
            && args[|args| - Arity(next[n].kind)..] == owed[n]
            && Synced(next[..n], args[..|args| - Arity(next[n].kind)], owed[..n])
  {
    var n := |next| - 1;
    assert args == Flat(owed[..n]) + owed[n];
  }

  /** Pushing a token's lists and arguments keeps the stacks in step when its arguments are as many
      as its lists ask for. */
  lemma PushKeepsSync(next: seq<TokenList>, args: seq<Arg>, owed: seq<seq<Arg>>, t: Token)
    requires Synced(next, args, owed) && Synced(t.next, t.args, Split(t.next, t.args))
    ensures Synced(next + t.next, args + t.args, owed + Split(t.next, t.args))
  {
    FlatConcat(owed, Split(t.next, t.args));
  }

  lemma SplitNone()
    ensures Split([], []) == [] && Synced([], [], [])
  {}

  /** One more list with its arguments on top. */
  lemma SplitMore(next: seq<TokenList>, args: seq<Arg>, l: TokenList, more: seq<Arg>)
    requires Synced(next, args, Split(next, args)) && |more| == Arity(l.kind)
    ensures Split(next + [l], args + more) == Split(next, args) + [more]
    ensures Synced(next + [l], args + more, Split(next, args) + [more])
  {
    var all := args + more;
    assert (next + [l])[..|next|] == next;
    assert all[..|all| - |more|] == args && all[|all| - |more|..] == more;
    assert (Split(next, args) + [more])[..|next|] == Split(next, args);
  }

  lemma SplitOne(a: TokenList, args: seq<Arg>)
    requires |args| == Arity(a.kind)
    ensures Split([a], args) == [args] && Synced([a], args, [args])
  {
    SplitNone();
    SplitMore([], [], a, args);
    assert [] + [a] == [a] && [] + args == args && [] + [args] == [args];
  }

  lemma SplitTwo(a: TokenList, b: TokenList, args: seq<Arg>)
    requires |args| == Arity(a.kind) + Arity(b.kind)
    ensures var n := Arity(a.kind);
            Split([a, b], args) == [args[..n], args[n..]] && Synced([a, b], args, [args[..n], args[n..]])
  {
    hide Split, Synced;
    var n := Arity(a.kind);
    SplitOne(a, args[..n]);
    SplitMore([a], args[..n], b, args[n..]);
    assert args[..n] + args[n..] == args;
    assert [a] + [b] == [a, b] && [args[..n]] + [args[n..]] == [args[..n], args[n..]];
  }

  lemma SplitThree(a: TokenList, b: TokenList, c: TokenList, args: seq<Arg>)
    requires |args| == Arity(a.kind) + Arity(b.kind) + Arity(c.kind)
    ensures var n, m := Arity(a.kind), Arity(a.kind) + Arity(b.kind);
            && Split([a, b, c], args) == [args[..n], args[n..m], args[m..]]
            && Synced([a, b, c], args, [args[..n], args[n..m], args[m..]])
  {
    hide Split, Synced;
    hide Arity;
    var n: nat, m: nat := Arity(a.kind), Arity(a.kind) + Arity(b.kind);
    var two, x, y, z := args[..m], args[..n], args[n..m], args[m..];
    SplitTwo(a, b, two);
    assert two[..n] == x && two[n..] == y;
    SplitMore([a, b], two, c, z);
    assert two + z == args;
    assert [a, b] + [c] == [a, b, c];
    assert [x, y] + [z] == [x, y, z];
  }

  /** Every token of a well-formed list brings the arguments of the lists it brings. */
  lemma TokenBringsArgs(k: Kind, i: nat, t: Token)
    requires TokenFits(k, i, t) && (i == END ==> !k.Rules? && !k.Groups?)
    ensures |t.next| <= 3 && Synced(t.next, t.args, Split(t.next, t.args))
  {
    hide Split, Synced, AllWithin, HeaderField;
    if |t.next| == 0 {
      SplitNone();
      assert t.next == [] && t.args == [];
    } else if |t.next| == 1 {
      SplitOne(t.next[0], t.args);
      assert t.next == [t.next[0]];
    } else if |t.next| == 2 {
      SplitTwo(t.next[0], t.next[1], t.args);
      assert t.next == [t.next[0], t.next[1]];
    } else {
      SplitThree(t.next[0], t.next[1], t.next[2], t.args);
      assert t.next == [t.next[0], t.next[1], t.next[2]];
    }
  }
}
