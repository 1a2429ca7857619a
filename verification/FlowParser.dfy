/** The flow command parser: a pushdown machine driven by the token table. */
module FlowParser {
  import opened BitFill
  import opened FlowTokens
  import opened Optional
  import opened FlowValues
  import opened FlowArena
  import opened FlowInput
  import opened FlowState

  /** What the RSS action takes from outside: the type names with their bits, the default types and
      key, and the numbers of queues and key bytes of the port. */
  datatype RssEnv = RssEnv(types: seq<(string, seq<bv8>)>, hf: seq<bv8>, key: seq<bv8>, queues: nat, keyLen: nat)

  predicate RssEnvOk(e: RssEnv) {
    |e.hf| == 8 && |e.key| == 64 && forall k :: 0 <= k < |e.types| ==> |e.types[k].1| == 8
  }

  function TypeNames(e: RssEnv): (names: seq<string>)
    ensures |names| == |e.types|
  {
    seq(|e.types|, k requires 0 <= k < |e.types| => e.types[k].0)
  }

  /** A callback may change the pending lists: prefix replaces the value that is to follow, and the
      lists of RSS types and queues are kept until they are ended. */
  function CalledNext(next: seq<TokenList>, i: nat, c: Call, text: string): seq<TokenList> {
    if c == VcSpec && i == ITEM_PARAM_PREFIX && |next| >= 2 then next[|next| - 2 := PrefixList]
    else if (c == RssType || c == RssQueue) && text != "end" then next + [TokenList(Rss, [i])]
    else next
  }

  function CalledOwed(owed: seq<seq<Arg>>, i: nat, c: Call, text: string): seq<seq<Arg>> {
    if (c == RssType || c == RssQueue) && text != "end" then owed + [[]] else owed
  }

  ghost predicate Pending(toks: Table, next: seq<TokenList>) {
    forall j :: 0 <= j < |next| ==> ListOk(toks, next[j])
  }

  /** Items and actions are only added; an earlier item is never changed, and an action not at all. */
  ghost predicate Grows(out: Buffer, out': Buffer) {
    && out.acts <= out'.acts && |out.items| <= |out'.items|
    && forall k :: 0 <= k < |out.items| - 1 ==> out'.items[k] == out.items[k]
  }

  /** Whether parse_vc() takes a token that matches by name: an item or an action needs room between
      both ends of the buffer. */
  predicate VcFits(v: View, i: nat, t: Token) {
    if v.out.command == 0 then i == VALIDATE || i == CREATE
    else if Special(i) then i != VALIDATE && i != CREATE
    else
      && t.priv.Some?
      && (if v.out.actions == 0 then Front(v.out) + ITEM <= BlockAt(v.out, 3 * t.priv.value.size)
          else Front(v.out) + ACT <= BlockAt(v.out, t.priv.value.size))
  }

  /** What it leaves behind: the object the next values are relative to, and the new item or action. */
  function VcView(v: View, i: nat, t: Token): View
    requires VcFits(v, i, t)
  {
    if v.out.command == 0 then
      v.(obj := 0, objmask := None, objdata := 0, out := v.out.(command := i, data := v.size))
    else if i == PATTERN then v.(obj := HEADER, objmask := None, objdata := 0, out := v.out.(pattern := HEADER))
    else if i == ACTIONS then
      var at := AlignCeil(v.out.pattern + ITEM * |v.out.items|);
      v.(obj := at, objmask := None, objdata := 0, out := v.out.(actions := at))
    else if Special(i) then v.(obj := 8, objmask := None, objdata := 0)
    else if v.out.actions == 0 then ItemView(v, t.priv.value.kind, t.priv.value.size)
    else ActView(v, t.priv.value.kind, t.priv.value.size)
  }

  /** The byte of the attributes with the ingress, egress and transfer bits, once a token has set its own. */
  ghost predicate AttrSet(i: nat, was: bv8, now: bv8) {
    && (i == INGRESS ==> now == was | 0x01)
    && (i == EGRESS ==> now == was | 0x02)
    && (i == TRANSFER ==> now == was | 0x04)
    && (i != INGRESS && i != EGRESS && i != TRANSFER ==> now == was)
  }

  /** What a parameter makes the current object: a third of the newest block. `is` is a spec with a
      full mask; the item gets the pointers that go with it, and no other. */
  ghost predicate Chosen(v: View, v': View, i: nat) {
    && v.out.items != [] && v'.out == v.out.(items := v'.out.items) && |v'.out.items| == |v.out.items|
    && v'.objdata == v.objdata && v'.blocks == v.blocks
    && var n, last := v.objdata / 3, |v.out.items| - 1;
    && v'.out.items[..last] == v.out.items[..last]
    && var spec, end, mask := v.out.data, v.out.data + n, v.out.data + 2 * n;
    && var item, item' := v.out.items[last], v'.out.items[last];
    && (i == ITEM_PARAM_IS ==>
          v'.obj == spec && v'.objmask == Some(mask) && item' == item.(spec := Some(spec), mask := Some(mask)))
    && (i == ITEM_PARAM_SPEC ==> v'.obj == spec && v'.objmask == None && item' == item.(spec := Some(spec)))
    && (i == ITEM_PARAM_LAST ==> v'.obj == end && v'.objmask == None && item' == item.(last := Some(end)))
    && (i == ITEM_PARAM_MASK || i == ITEM_PARAM_PREFIX ==>
          v'.obj == mask && v'.objmask == None && item' == item.(mask := Some(mask)))
  }

  lemma ParamMeans(v: View, i: nat)
    requires v.out.items != []
    requires i in {ITEM_PARAM_IS, ITEM_PARAM_SPEC, ITEM_PARAM_LAST, ITEM_PARAM_MASK, ITEM_PARAM_PREFIX}
    ensures forall v': View :: v' == ParamView(v, i).(next := v'.next) ==> Chosen(v, Bare(v'), i)
  {}

  /** An item or an action fits between both ends of the buffer; the block is taken downwards and
      aligned to 8 bytes. */
  ghost predicate RoomFor(out: Buffer, t: Token) {
    && t.priv.Some?
    && (if out.actions == 0 then
          var end := out.data - 3 * t.priv.value.size;
          out.pattern + 32 * (|out.items| + 1) <= end - end % 8
        else
          var end := out.data - t.priv.value.size;
          out.actions + 16 * (|out.acts| + 1) <= end - end % 8)
  }

  /** When a candidate takes a word: its name, and what its callback asks for besides. */
  ghost predicate Takes(v: View, args: seq<Arg>, i: nat, t: Token, w: Word, e: RssEnv, actions: seq<Token>)
    requires WordOk(w)
  {
    match t.call
    case Default => t.name == w.text
    case VcSpec => t.name == w.text
    case VcConf => t.name == w.text
    case Init => t.name == w.text && 56 <= v.size
    case Vc => t.name == w.text && VcTakes(v, i, t)
    case VcActionRss => t.name == w.text && VcTakes(v, i, t)
    case RssFunc =>
      t.name == w.text && i in {ACTION_RSS_FUNC_DEFAULT, ACTION_RSS_FUNC_TOEPLITZ, ACTION_RSS_FUNC_SIMPLE_XOR}
    case RssType => w.text == "end" || exists k :: 0 <= k < |e.types| && e.types[k].0 == w.text
    case RssQueue => w.text == "end" || (v.objdata / 0x1_0000 < 32 && w.num.unsigned.Some?)
    case Destroy => t.name == w.text && (v.out.command == 0 || 56 + 4 * (v.out.ruleN + 1) <= v.size)
    case List => t.name == w.text && (v.out.command == 0 || 56 + 4 * (v.out.groupN + 1) <= v.size)
    case Flush => t.name == w.text && v.out.command == 0
    case Query => t.name == w.text && v.out.command == 0
    case Isolate => t.name == w.text && v.out.command == 0
    case _ => ValueAccepted(t.call, w, Tail(args, Pops(t.call)), actions)
  }

  ghost predicate VcTakes(v: View, i: nat, t: Token) {
    if v.out.command == 0 then i == VALIDATE || i == CREATE
    else if i in {GROUP, PRIORITY, INGRESS, EGRESS, TRANSFER, PATTERN, ACTIONS} then true
    else i != VALIDATE && i != CREATE && RoomFor(v.out, t)
  }

  lemma FitsIsTakes(v: View, i: nat, t: Token)
    requires v.out.command != 0 && !Special(i) && v.out.actions == 0 ==> v.out.pattern != 0
    ensures VcFits(v, i, t) <==> VcTakes(v, i, t)
  {}

  function CommandView(v: View, i: nat, t: Token): View {
    if v.out.command == 0 then v.(objdata := 0, obj := 0, objmask := None, out := CommandOut(i, v.size))
    else if t.call == Destroy then
      v.(obj := HEADER + 4 * v.out.ruleN, objmask := None, objdata := 0, out := v.out.(ruleN := v.out.ruleN + 1))
    else
      v.(obj := HEADER + 4 * v.out.groupN, objmask := None, objdata := 0, out := v.out.(groupN := v.out.groupN + 1))
  }

  /** The view once a callback has taken a word. */
  function After(v: View, i: nat, t: Token, w: Word): View {
    match t.call
    case Init => v.(obj := 0, objmask := None, objdata := 0, out := Blank, blocks := [])
    case Vc => if VcFits(v, i, t) then VcView(v, i, t) else v
    case VcActionRss =>
      if VcFits(v, i, t) then var a := VcView(v, i, t); a.(obj := a.out.data, objmask := None) else v
    case VcSpec => if v.out.items != [] then ParamView(v, i).(next := CalledNext(v.next, i, t.call, w.text)) else v
    case VcConf => v.(obj := v.out.data, objmask := None)
    case RssType =>
      v.(objdata := (if w.text == "end" then 0 else 0x1_0000) + v.objdata % 0x1_0000,
         next := CalledNext(v.next, i, t.call, w.text), owed := CalledOwed(v.owed, i, t.call, w.text))
    case RssQueue =>
      v.(objdata := (if w.text == "end" then 0 else (v.objdata / 0x1_0000 + 1) * 0x1_0000) + v.objdata % 0x1_0000,
         next := CalledNext(v.next, i, t.call, w.text), owed := CalledOwed(v.owed, i, t.call, w.text))
    case Destroy => CommandView(v, i, t)
    case List => CommandView(v, i, t)
    case Flush => CommandView(v, i, t)
    case Query => CommandView(v, i, t)
    case Isolate => CommandView(v, i, t)
    case _ => v
  }

  /** A new item of the token's type at the end of the pattern, without pointers, and a block of three
      times its size below the others, as high as alignment allows. */
  ghost predicate NewItem(v: View, v': View, t: Token) {
    && t.priv.Some?
    && var n, at := 3 * t.priv.value.size, v'.out.data;
    && v'.out == v.out.(items := v.out.items + [Item(t.priv.value.kind, None, None, None)], data := at)
    && at % 8 == 0 && at + n <= v.out.data < at + n + 8
    && v'.blocks == v.blocks + [Block(at, n)]
    && v'.obj == v.out.pattern + 32 * |v.out.items| && v'.objmask == None && v'.objdata == n
  }

  /** A new action of the token's type, with a pointer to its block unless that is empty. */
  ghost predicate NewAction(v: View, v': View, t: Token) {
    && t.priv.Some?
    && var n, at := t.priv.value.size, v'.out.data;
    && v'.out == v.out.(acts := v.out.acts + [Act(t.priv.value.kind, if n == 0 then None else Some(at))], data := at)
    && at % 8 == 0 && at + n <= v.out.data < at + n + 8
    && v'.blocks == v.blocks + [Block(at, n)] && v'.objmask == None && v'.objdata == n
    && v'.obj == if t.call == VcActionRss then at else v.out.actions + 16 * |v.out.acts|
  }

  ghost predicate VcEffect(v: View, v': View, i: nat, t: Token) {
    if v.out.command == 0 then
      && v'.out == v.out.(command := i, data := v.size) && v'.blocks == v.blocks
      && v'.obj == 0 && v'.objmask == None && v'.objdata == 0
    else if i == PATTERN then
      && v'.out == v.out.(pattern := 56) && v'.blocks == v.blocks
      && v'.obj == 56 && v'.objmask == None && v'.objdata == 0
    else if i == ACTIONS then
      && v'.out == v.out.(actions := v'.obj) && v'.blocks == v.blocks
      && v'.obj % 8 == 0 && v.out.pattern + 32 * |v.out.items| <= v'.obj < v.out.pattern + 32 * |v.out.items| + 8
      && v'.objmask == None && v'.objdata == 0
    else if i in {GROUP, PRIORITY, INGRESS, EGRESS, TRANSFER} then
      && v'.out == v.out && v'.blocks == v.blocks && v'.obj == 8 && v'.objmask == None && v'.objdata == 0
    else if v.out.actions == 0 then NewItem(v, v', t)
    else NewAction(v, v', t)
  }

  /** A command starts; destroy and list start their list behind the header. */
  ghost predicate CommandEffect(v: View, v': View, i: nat, c: Call) {
    && v'.blocks == v.blocks && v'.objmask == None && v'.objdata == 0
    && if v.out.command == 0 then
         && v'.obj == 0
         && v'.out == Buffer(i, 0, 0, [], [], 0, if i == DESTROY then 56 else 0, 0, if i == LIST then 56 else 0, 0)
       else if c == Destroy then
         v'.obj == 56 + 4 * v.out.ruleN && v'.out == v.out.(ruleN := v.out.ruleN + 1)
       else
         v'.obj == 56 + 4 * v.out.groupN && v'.out == v.out.(groupN := v.out.groupN + 1)
  }

  /** What taking a word does to the current object and to the words the parser maintains in the
      buffer. */
  ghost predicate Effect(v: View, v': View, i: nat, t: Token, w: Word) {
    EffectOn(v, Bare(v'), i, t, w)
  }

  /** A view apart from what is pending */
  ghost function Bare(v: View): View {
    v.(next := [], owed := [])
  }

  ghost predicate EffectOn(v: View, v': View, i: nat, t: Token, w: Word) {
    && v'.size == v.size
    && match t.call
       case Init =>
         && v'.out == Buffer(0, 0, 0, [], [], 0, 0, 0, 0, 0) && v'.blocks == []
         && v'.obj == 0 && v'.objmask == None && v'.objdata == 0
       case Vc => VcEffect(v, v', i, t)
       case VcActionRss => NewAction(v, v', t)
       case VcSpec => Chosen(v, v', i)
       case VcConf =>
         && v'.obj == v.out.data && v'.objmask == None
         && v'.out == v.out && v'.blocks == v.blocks && v'.objdata == v.objdata
       case RssType =>
         && v'.objdata == (if w.text == "end" then 0 else 0x1_0000) + v.objdata % 0x1_0000
         && v'.out == v.out && v'.blocks == v.blocks && v'.obj == v.obj && v'.objmask == v.objmask
       case RssQueue =>
         && v'.objdata == (if w.text == "end" then 0 else (v.objdata / 0x1_0000 + 1) * 0x1_0000) + v.objdata % 0x1_0000
         && v'.out == v.out && v'.blocks == v.blocks && v'.obj == v.obj && v'.objmask == v.objmask
       case _ =>
         if t.call in {Destroy, List, Flush, Query, Isolate} then CommandEffect(v, v', i, t.call)
         else
           && v'.out == v.out && v'.blocks == v.blocks
           && v'.obj == v.obj && v'.objmask == v.objmask && v'.objdata == v.objdata
  }

  lemma ItemMeans(v: View, t: Token)
    requires t.priv.Some? && BlockAt(v.out, 3 * t.priv.value.size) >= 0
    ensures NewItem(v, Bare(ItemView(v, t.priv.value.kind, t.priv.value.size)), t)
  {}

  lemma ActMeans(v: View, t: Token)
    requires t.priv.Some? && BlockAt(v.out, t.priv.value.size) >= 0
    ensures var a := ActView(v, t.priv.value.kind, t.priv.value.size);
            && (t.call == Vc ==> NewAction(v, Bare(a), t))
            && (t.call == VcActionRss ==> NewAction(v, Bare(a.(obj := a.out.data, objmask := None)), t))
  {}

  lemma VcMeans(v: View, i: nat, t: Token)
    requires VcFits(v, i, t) && t.call in {Vc, VcActionRss}
    ensures t.call == Vc ==> VcEffect(v, Bare(VcView(v, i, t)), i, t)
    ensures t.call == VcActionRss && v.out.command != 0 && !Special(i) && v.out.actions != 0 ==>
      var a := VcView(v, i, t); NewAction(v, Bare(a.(obj := a.out.data, objmask := None)), t)
  {
    hide NewItem, NewAction, ItemView, ActView, BlockAt;
    if v.out.command != 0 && !Special(i) {
      if v.out.actions == 0 {
        ItemMeans(v, t);
      } else {
        ActMeans(v, t);
      }
    }
  }

  lemma CommandMeans(v: View, i: nat, t: Token)
    requires v.out.command == 0 ==> i != VALIDATE && i != CREATE
    requires t.call in {Destroy, List, Flush, Query, Isolate}
    ensures CommandEffect(v, Bare(CommandView(v, i, t)), i, t.call)
  {}

  /** The lists that are pending once a word is taken: those of the token instead of the list on top.
      prefix also replaces the value that was to follow; a list of RSS types or queues stays until
      it is ended. */
  ghost predicate ListsAfter(next0: seq<TokenList>, next: seq<TokenList>, i: nat, t: Token, text: string) {
    && next0 != []
    && var rest := next0[..|next0| - 1];
    && if t.call == VcSpec && i == ITEM_PARAM_PREFIX then
         rest != [] && next == rest[..|rest| - 1] + [TokenList(Value(1), [PREFIX])] + t.next
       else if (t.call == RssType || t.call == RssQueue) && text != "end" then
         next == next0 + t.next
       else
         next == rest + t.next
  }

  // ----- a line -----

  /** No further word is needed: nothing is pending, or the line is over and the list on top has END. */
  ghost predicate Ends(v: View, curr: nat, eol: bool, last: bool) {
    (v.next == [] && curr != ZERO) || (eol && last && v.next != [] && END in v.next[|v.next| - 1].toks)
  }

  /** A new line starts with the list of the first token. */
  ghost function Entering(toks: Table, v: View): View {
    if v.next == [] && toks(ZERO).next != [] then v.(next := [toks(ZERO).next[0]], owed := [[]]) else v
  }

  function StartView(out: Buffer, size: nat): View {
    View([], [], 0, None, 0, out, [], size)
  }

  /** The rest of a line is accepted: word by word some candidate of the list on top takes it, until
      no further word is needed, and then there is none. */
  ghost predicate LineOk(toks: Table, e: RssEnv, actions: seq<Token>, v: View, args: seq<Arg>, curr: nat, eol: bool,
                         last: bool, words: seq<Word>)
    requires forall k :: 0 <= k < |words| ==> WordOk(words[k])
    decreases |words|, 0
  {
    if Ends(v, curr, eol, last) then words == []
    else
      && words != [] && Entering(toks, v).next != []
      && var v0, w := Entering(toks, v), words[0];
      && var list := v0.next[|v0.next| - 1];
      && exists k :: 0 <= k < |list.toks| && Takes(v0, args, list.toks[k], toks(list.toks[k]), w, e, actions)
                     && RestOk(toks, e, actions, v0, args, list.toks[k], w, words[1..])
  }

  /** The rest of the line once token i has taken a word. */
  ghost predicate RestOk(toks: Table, e: RssEnv, actions: seq<Token>, v0: View, args: seq<Arg>, i: nat, w: Word,
                         rest: seq<Word>)
    requires forall k :: 0 <= k < |rest| ==> WordOk(rest[k])
    decreases |rest|, 1
  {
    var t, a := toks(i), After(v0, i, toks(i), w);
    && a.next != [] && a.owed != [] && Pops(t.call) <= |args|
    && LineOk(toks, e, actions, Push(a, t), args[..|args| - Pops(t.call)] + t.args, i, w.eol, w.last, rest)
  }

  lemma NotNamed(v: View, args: seq<Arg>, i: nat, t: Token, w: Word, e: RssEnv, actions: seq<Token>)
    requires WordOk(w) && ByName(t.call) && t.name != w.text
    ensures !Takes(v, args, i, t, w, e, actions)
  {
    hide ValueAccepted;
  }

  /** Only one candidate of a list takes a word. */
  lemma OnlyOne(toks: Table, list: TokenList, v: View, args: seq<Arg>, w: Word, e: RssEnv, actions: seq<Token>,
                j: nat, k: nat)
    requires WordOk(w) && ListOk(toks, list) && j < |list.toks| && k < |list.toks|
    requires Takes(v, args, list.toks[j], toks(list.toks[j]), w, e, actions)
    requires Takes(v, args, list.toks[k], toks(list.toks[k]), w, e, actions)
    ensures j == k
  {
    hide Takes, TokenFits;
    if |list.toks| > 1 {
      if toks(list.toks[j]).name != w.text {
        NotNamed(v, args, list.toks[j], toks(list.toks[j]), w, e, actions);
      }
      if toks(list.toks[k]).name != w.text {
        NotNamed(v, args, list.toks[k], toks(list.toks[k]), w, e, actions);
      }
      assert j < k || k < j || j == k;
    }
  }

  lemma PopsIsArity(k: Kind, i: nat, t: Token)
    requires TokenFits(k, i, t)
    ensures Pops(t.call) == Arity(k)
  {}

  /** The stacks stay in step while a token is taken. */
  lemma CalledSync(v: View, args: seq<Arg>, i: nat, t: Token, text: string)
    requires StateOk(v) && Synced(v.next, args, v.owed) && v.next != [] && TokenFits(Top(v), i, t)
    ensures var next, owed := CalledNext(v.next, i, t.call, text), CalledOwed(v.owed, i, t.call, text);
            && next != [] && |owed| == |next| && Pops(t.call) <= |args|
            && Synced(next[..|next| - 1], args[..|args| - Pops(t.call)], owed[..|owed| - 1])
  {
    hide ArenaOk, AllWithin, HeaderRooms, EntryRooms, NoEndItem, NoEndAct, ItemsEnded, ActsEnded, Flat;
    PopsIsArity(Top(v), i, t);
    TopArgs(v.next, args, v.owed);
    var next, owed := CalledNext(v.next, i, t.call, text), CalledOwed(v.owed, i, t.call, text);
    if (t.call == RssType || t.call == RssQueue) && text != "end" {
      assert next[..|next| - 1] == v.next && owed[..|owed| - 1] == v.owed;
      assert args[..|args|] == args;
    }
  }

  class Parser {
    const toks: Table
    const rss: RssEnv
    /** next_action[] */
    const actionList: seq<nat>
    /** The output buffer, the argument stack and the current object */
    const r: Reader

    // struct context
    var next: seq<TokenList>
    var curr: nat
    var prev: nat
    var eol: bool
    var last: bool
    var objdata: nat
    /** struct buffer */
    var out: Buffer

    ghost var owed: seq<seq<Arg>>
    ghost var blocks: seq<Block>
    /** What each block but the newest held when the next one was opened */
    ghost var frozen: seq<seq<bv8>>

    constructor (toks: Table, rss: RssEnv, actionList: seq<nat>, r: Reader)
      ensures this.toks == toks && this.rss == rss && this.actionList == actionList && this.r == r
    {
      this.toks, this.rss, this.actionList, this.r := toks, rss, actionList, r;
      next, curr, prev, eol, last, objdata, out := [], ZERO, ZERO, false, false, 0, Blank;
      owed, blocks, frozen := [], [], [];
    }

    ghost function V(): View
      reads this`next, this`owed, this`objdata, this`out, this`blocks, r`obj, r`objmask
    {
      View(next, owed, r.obj, r.objmask, objdata, out, blocks, r.mem.Length)
    }

    ghost predicate Valid()
      reads this, r, r.mem
    {
      && WellFormed(toks) && RssEnvOk(rss)
      && StateOk(V()) && Synced(next, r.args, owed) && Pending(toks, next)
      && FrozenOk(r.mem[..], blocks, frozen)
    }

    /** Token i of the top list has been taken from a state v0 with the arguments args0 and the
        buffer m0: what its callback leaves behind, just before the top list makes way. */
    ghost predicate Called(v0: View, args0: seq<Arg>, m0: seq<bv8>, f0: seq<seq<bv8>>, i: nat, t: Token, text: string)
      reads this, r, r.mem
    {
      && next == CalledNext(v0.next, i, t.call, text) && owed == CalledOwed(v0.owed, i, t.call, text)
      && next != [] && |owed| == |next|
      && Pops(t.call) <= |args0| && r.args == args0[..|args0| - Pops(t.call)]
      && StateOk(Push(V(), t))
      && FrozenOk(r.mem[..], blocks, frozen) && f0 <= frozen
      && (t.call != Init ==> WritesOnly(m0, r.mem[..], out, blocks) && Grows(v0.out, out))
    }

    /** A token that does not match leaves both stacks alone. */
    ghost predicate Unmatched(v0: View, args0: seq<Arg>)
      reads this, r
    {
      next == v0.next && owed == v0.owed && r.args == args0
    }

    /** Token i is a candidate of the top list. */
    ghost predicate Candidate(i: nat, t: Token)
      reads this, r, r.mem
    {
      Valid() && next != [] && TokenFits(Top(V()), i, t)
    }

    /** A callback that writes nothing and adds neither an item nor an action. */
    lemma Unwritten(o: Buffer, o': Buffer)
      requires o.items == o'.items && o.acts == o'.acts
      ensures WritesOnly(r.mem[..], r.mem[..], o', blocks) && Grows(o, o')
    {}

    /** parse_default() */
    method ParseDefault(i: nat, t: Token, text: string) returns (ok: bool)
      requires t.name == text ==> Candidate(i, t) && t.call == Default && text != ""
      ensures ok <==> t.name == text
      ensures ok ==> Called(old(V()), old(r.args), old(r.mem[..]), old(frozen), i, t, text)
    {
      hide StateOk, FrozenOk, WritesOnly, Grows, Push, Synced, Pending, WellFormed, RssEnvOk;
      ok := t.name == text;
      if ok {
        DefaultStep(V(), i, t);
        Unwritten(out, out);
        assert r.args == r.args[..|r.args| - 0];
      }
    }

    lemma DefaultStep(v: View, i: nat, t: Token)
      requires StateOk(v) && v.next != [] && TokenFits(Top(v), i, t) && t.call == Default && t.name != ""
      ensures StateOk(Push(v, t)) && |v.owed| == |v.next|
    {
      hide ArenaOk, AllWithin, HeaderRooms, EntryRooms, NoEndItem, NoEndAct, ItemsEnded, ActsEnded, Push, Split;
      if Top(v).ItemField? {
        ItemFieldStep(v, i, t);
      } else {
        assert Top(v).ActionField?;
        ActionFieldStep(v, i, t);
      }
    }

    /** parse_init() */
    method ParseInit(i: nat, t: Token, text: string) returns (ok: bool)
      requires t.name == text ==> Candidate(i, t) && t.call == Init
      modifies this`objdata, this`out, this`blocks, this`frozen, r`obj, r`objmask, r.mem
      ensures ok <==> t.name == text && r.mem.Length >= HEADER
      ensures ok ==> Called(old(V()), old(r.args), old(r.mem[..]), old(frozen), i, t, text)
      ensures ok ==> V() == old(V()).(obj := 0, objmask := None, objdata := 0, out := Blank, blocks := [])
      ensures ok ==> r.mem[..] == seq(HEADER, _ => 0) + seq(r.mem.Length - HEADER, _ => 0x22)
      ensures !ok ==> r.mem[..] == old(r.mem[..]) && V() == old(V()) && frozen == old(frozen)
    {
      hide StateOk, Push, Synced, Pending, SameBut, FrozenOk, WellFormed, RssEnvOk;
      if t.name != text || r.mem.Length < HEADER {
        return false;
      }
      InitPlace(V(), i, t, r.mem[..], frozen);
      r.Fill(0, 0, HEADER);
      ghost var middle := r.mem[..];
      r.Fill(HEADER, 0x22, r.mem.Length - HEADER);
      TwoFills(middle, r.mem[..]);
      out := Blank;
      objdata := 0;
      r.obj := 0;
      r.objmask := None;
      blocks := [];
      assert r.args == r.args[..|r.args| - 0];
      StillFrozen(r.mem[..]);
      return true;
    }

    lemma InitPlace(v: View, i: nat, t: Token, m: seq<bv8>, f: seq<seq<bv8>>)
      requires StateOk(v) && v.next != [] && TokenFits(Top(v), i, t) && t.call == Init && v.size >= HEADER
      requires FrozenOk(m, v.blocks, f)
      ensures |v.owed| == |v.next| == 1 && v.blocks == [] && f == []
      ensures StateOk(Push(v.(obj := 0, objmask := None, objdata := 0, out := Blank, blocks := []), t))
    {
      EntryPlace(v, i, t);
      hide StateOk, Push;
      EntryStep(v, t);
    }

    lemma EntryPlace(v: View, i: nat, t: Token)
      requires StateOk(v) && v.next != [] && TokenFits(Top(v), i, t) && t.call == Init
      ensures |v.owed| == |v.next| == 1 && v.blocks == [] && v.next[0].kind == Entry && i == FLOW
    {
      hide ArenaOk, AllWithin, HeaderRooms, EntryRooms, NoEndItem, NoEndAct, ItemsEnded, ActsEnded;
    }

    lemma StillFrozen(m: seq<bv8>)
      ensures FrozenOk(m, [], [])
    {}

    lemma TwoFills(middle: seq<bv8>, m: seq<bv8>)
      requires HEADER <= |middle| == |m| && Part(middle, 0, HEADER) == seq(HEADER, _ => 0)
      requires Part(m, HEADER, |m| - HEADER) == seq(|m| - HEADER, _ => 0x22)
      requires SameBut(middle, m, HEADER, HEADER + (|m| - HEADER))
      ensures m == seq(HEADER, _ => 0) + seq(|m| - HEADER, _ => 0x22)
    {
      assert Part(m, 0, HEADER) == Part(middle, 0, HEADER);
      assert m == Part(m, 0, HEADER) + Part(m, HEADER, |m| - HEADER);
    }

    // ----- validate and create -----

    /** parse_vc() */
    method ParseVc(i: nat, t: Token, text: string) returns (ok: bool)
      requires t.name == text ==> Candidate(i, t) && t.call in {Vc, VcActionRss}
      modifies this`objdata, this`out, this`blocks, this`frozen, r`obj, r`objmask, r.mem
      ensures ok <==> t.name == text && VcFits(old(V()), i, t)
      ensures t.name != text ==> r.mem[..] == old(r.mem[..]) && V() == old(V()) && frozen == old(frozen)
      ensures Unmatched(old(V()), old(r.args))
      ensures ok ==> V() == VcView(old(V()), i, t) && |blocks| >= |old(blocks)|
      ensures ok && old(out).command != 0 && !Special(i) && old(out).actions == 0 ==>
        out.items == old(out).items + [Item(t.priv.value.kind, None, None, None)] && out.acts == old(out).acts
      ensures ok && old(out).command != 0 && !Special(i) && old(out).actions != 0 ==>
        && out.items == old(out).items
        && out.acts == old(out).acts + [Act(t.priv.value.kind, if t.priv.value.size == 0 then None else Some(out.data))]
      ensures ok && t.call == Vc ==> Called(old(V()), old(r.args), old(r.mem[..]), old(frozen), i, t, text)
      ensures ok && t.call == VcActionRss ==> TakenAction(old(V()), old(r.mem[..]), old(frozen), t)
      ensures ok && |blocks| > |old(blocks)| ==> NewestZeroed(r.mem[..])
      ensures ok && |blocks| == |old(blocks)| && r.mem.Length > 16 ==>
        SameBut(old(r.mem[..]), r.mem[..], 16, 17)
        && (if old(out).command != 0 then AttrSet(i, old(r.mem[16]), r.mem[16]) else r.mem[16] == old(r.mem[16]))
    {
      hide StateOk, Push, Synced, Pending, SameBut, FrozenOk, WritesOnly, Grows, ArenaOk, TokenFits, BlockAt,
        WellFormed, RssEnvOk, Called, Front, ItemView, ActView, NewestZeroed, AlignCeil;
      if t.name != text {
        return false;
      }
      VcPlace(V(), i, t);
      Anyhow(r.mem[..]);
      if out.command == 0 {
        if i != VALIDATE && i != CREATE {
          return false;
        }
        if HEADER > r.mem.Length {
          return false;
        }
        VcCommand(i, t);
        return true;
      }
      if i in {GROUP, PRIORITY, INGRESS, EGRESS, TRANSFER, PATTERN} {
        VcAttr(i, t);
        return true;
      }
      if i == ACTIONS {
        VcToActions(i, t);
        return true;
      }
      if t.priv.None? {
        return false;
      }
      ok := VcEntry(i, t);
    }

    lemma Anyhow(m: seq<bv8>)
      ensures SameBut(m, m, 16, 17)
    {}

    ghost predicate NewestZeroed(m: seq<bv8>)
      reads this`blocks
    {
      blocks != [] && Slice(m, blocks[|blocks| - 1]) == seq(blocks[|blocks| - 1].size, _ => 0)
    }

    /** An action with its zeroed configuration, before the RSS action fills it in. */
    ghost predicate TakenAction(v0: View, m0: seq<bv8>, f0: seq<seq<bv8>>, t: Token)
      reads this, r, r.mem
    {
      && t.priv.Some? && Front(v0.out) + ACT <= BlockAt(v0.out, t.priv.value.size)
      && Opened(ActView(v0, t.priv.value.kind, t.priv.value.size), m0, f0) && Grows(v0.out, out)
    }

    /** An item or an action */
    method VcEntry(i: nat, t: Token) returns (ok: bool)
      requires Candidate(i, t) && t.call in {Vc, VcActionRss} && |next| == |owed| == 1 && t.priv.Some?
      requires Top(V()) == if out.actions == 0 then Items else Actions
      requires ArenaOk(out, blocks, r.mem.Length) && out.pattern != 0
      modifies this`objdata, this`out, this`blocks, this`frozen, r`obj, r`objmask, r.mem
      ensures Unmatched(old(V()), old(r.args))
      ensures ok && t.call == Vc ==> Called(old(V()), old(r.args), old(r.mem[..]), old(frozen), i, t, t.name)
      ensures ok && t.call == VcActionRss ==> TakenAction(old(V()), old(r.mem[..]), old(frozen), t)
      ensures ok <==> if old(out).actions == 0 then Front(old(out)) + ITEM <= BlockAt(old(out), 3 * t.priv.value.size)
                      else Front(old(out)) + ACT <= BlockAt(old(out), t.priv.value.size)
      ensures ok ==> NewestZeroed(r.mem[..]) && |blocks| == |old(blocks)| + 1
      ensures ok && old(out).actions == 0 ==>
                out.items == old(out).items + [Item(t.priv.value.kind, None, None, None)] && out.acts == old(out).acts
      ensures ok && old(out).actions != 0 ==>
        && out.items == old(out).items
        && out.acts == old(out).acts + [Act(t.priv.value.kind, if t.priv.value.size == 0 then None else Some(out.data))]
      ensures ok && old(out).actions == 0 ==> V() == ItemView(old(V()), t.priv.value.kind, t.priv.value.size)
      ensures ok && old(out).actions != 0 ==> V() == ActView(old(V()), t.priv.value.kind, t.priv.value.size)
    {
      hide StateOk, Push, Synced, Pending, FrozenOk, WritesOnly, Grows, ArenaOk, BlockAt, WithItem, WithAct,
        Slice, WellFormed, RssEnvOk;
      ghost var v0 := V();
      assert r.args == r.args[..|r.args| - 0];
      objdata := 0;
      r.obj := 8;
      r.objmask := None;
      if out.actions == 0 {
        ok := OpenItem(i, t, v0);
      } else {
        ok := OpenAction(i, t, v0);
      }
    }

    /** Where the tokens of parse_vc() stand. */
    lemma VcPlace(v: View, i: nat, t: Token)
      requires StateOk(v) && v.next != [] && TokenFits(Top(v), i, t) && t.call in {Vc, VcActionRss}
      ensures |v.owed| == |v.next| == 1
      ensures v.out.command == 0 <==> Top(v) == Command
      ensures Top(v) == Command ==> i in {VALIDATE, CREATE} && v.out == Blank && v.blocks == []
      ensures v.out.command != 0 && i in {GROUP, PRIORITY, INGRESS, EGRESS, TRANSFER, PATTERN} ==> Top(v) == Attr
      ensures v.out.command != 0 && i == ACTIONS ==> Top(v) == ToActions
      ensures v.out.command != 0 && !Special(i) ==>
        t.priv.Some? && Top(v) == (if v.out.actions == 0 then Items else Actions)
      ensures v.out.command != 0 && Special(i) ==> i != VALIDATE && i != CREATE
      ensures t.call == VcActionRss ==> v.out.command != 0 && !Special(i) && v.out.actions != 0
      ensures Top(v) != Command ==> IsVc(v.out) && ArenaOk(v.out, v.blocks, v.size)
      ensures v.size >= HEADER && (t.call == VcActionRss ==> Top(v) == Actions)
      ensures Top(v) == Items || Top(v) == Actions ==> v.out.pattern != 0
    {
      hide ArenaOk, AllWithin, HeaderRooms, EntryRooms, NoEndItem, NoEndAct, ItemsEnded, ActsEnded;
    }

    /** validate, create */
    method VcCommand(i: nat, t: Token)
      requires Candidate(i, t) && Top(V()) == Command && t.call == Vc && |next| == |owed| == 1
      requires i in {VALIDATE, CREATE} && out == Blank
      modifies this`objdata, this`out, r`obj, r`objmask
      ensures Called(old(V()), old(r.args), r.mem[..], frozen, i, t, t.name)
      ensures V() == old(V()).(obj := 0, objmask := None, objdata := 0,
                               out := Blank.(command := i, data := r.mem.Length))
    {
      hide StateOk, Push, Synced, Pending, FrozenOk, WritesOnly, Grows, WellFormed, RssEnvOk;
      assert r.args == r.args[..|r.args| - 0];
      CommandStep(V(), i, t);
      Unwritten(out, out.(command := i, data := r.mem.Length));
      out := out.(command := i, data := r.mem.Length);
      objdata := 0;
      r.obj := 0;
      r.objmask := None;
    }

    /** actions */
    method VcToActions(i: nat, t: Token)
      requires Candidate(i, t) && Top(V()) == ToActions && t.call == Vc && |next| == |owed| == 1
      modifies this`objdata, this`out, r`obj, r`objmask
      ensures Called(old(V()), old(r.args), r.mem[..], frozen, i, t, t.name)
      ensures var at := AlignCeil(old(out).pattern + ITEM * |old(out).items|);
              && at == HEADER + ITEM * |old(out).items|
              && V() == old(V()).(obj := at, objmask := None, objdata := 0, out := old(out).(actions := at))
    {
      hide StateOk, Push, Synced, Pending, FrozenOk, AlignCeil, WritesOnly, Grows, TokenFits, WellFormed, RssEnvOk;
      assert r.args == r.args[..|r.args| - 0];
      ToActionsStep(V(), i, t);
      Unwritten(out, out.(actions := AlignCeil(out.pattern + ITEM * |out.items|)));
      objdata := 0;
      out := out.(actions := AlignCeil(out.pattern + ITEM * |out.items|));
      r.obj := out.actions;
      r.objmask := None;
    }

    /** group, priority, ingress, egress, transfer, pattern */
    method VcAttr(i: nat, t: Token)
      requires Candidate(i, t) && Top(V()) == Attr && t.call == Vc && |next| == |owed| == 1 && IsVc(out)
      requires r.mem.Length >= HEADER
      modifies this`objdata, this`out, r`obj, r`objmask, r.mem
      ensures Called(old(V()), old(r.args), old(r.mem[..]), old(frozen), i, t, t.name)
      ensures i == PATTERN ==>
        V() == old(V()).(obj := HEADER, objmask := None, objdata := 0, out := old(out).(pattern := HEADER))
      ensures i != PATTERN ==> V() == old(V()).(obj := 8, objmask := None, objdata := 0)
      ensures SameBut(old(r.mem[..]), r.mem[..], 16, 17) && AttrSet(i, old(r.mem[16]), r.mem[16])
    {
      hide StateOk, Push, Synced, Pending, FrozenOk, TokenFits, WritesOnly, Grows, SameBut, WellFormed, RssEnvOk;
      ghost var m0, out0 := r.mem[..], out;
      AttrStep(V(), i, t);
      KeepsFrozen(V(), r.mem[..], frozen);
      assert r.args == r.args[..|r.args| - 0];
      objdata := 0;
      r.obj := 8;
      r.objmask := None;
      if i == PATTERN {
        out := out.(pattern := AlignCeil(HEADER));
        r.obj := out.pattern;
        r.objmask := None;
      } else {
        SetAttribute(i);
      }
      Unwritten(out0, out);
      HeaderWritten(m0, r.mem[..], out, blocks);
    }

    /** The ingress, egress and transfer bits of the attributes */
    method SetAttribute(i: nat)
      requires r.mem.Length >= HEADER
      modifies r.mem
      ensures SameBut(old(r.mem[..]), r.mem[..], 16, 17) && AttrSet(i, old(r.mem[16]), r.mem[16])
    {
      if i == INGRESS {
        r.mem[16] := r.mem[16] | 0x01;
      } else if i == EGRESS {
        r.mem[16] := r.mem[16] | 0x02;
      } else if i == TRANSFER {
        r.mem[16] := r.mem[16] | 0x04;
      }
    }

    lemma HeaderWritten(m0: seq<bv8>, m1: seq<bv8>, o: Buffer, bs: seq<Block>)
      requires IsVc(o) && (m0 == m1 || SameBut(m0, m1, 16, 17))
      ensures WritesOnly(m0, m1, o, bs) && SameBut(m0, m1, 16, 17)
    {}

    /** With the attributes pending there is no block yet. */
    lemma KeepsFrozen(v: View, m: seq<bv8>, f: seq<seq<bv8>>)
      requires StateOk(v) && v.next != [] && Top(v) == Attr && |v.next| == 1 && FrozenOk(m, v.blocks, f)
      ensures v.blocks == [] && f == []
      ensures forall m': seq<bv8> :: FrozenOk(m', v.blocks, f)
      ensures AlignCeil(HEADER) == HEADER
    {}

    /** The first half of what is left behind by an item or an action: a zeroed block in front of the
        others, and nothing else changed in the buffer. */
    ghost predicate Opened(v: View, m0: seq<bv8>, f0: seq<seq<bv8>>)
      reads this, r, r.mem
    {
      && V() == v && FrozenOk(r.mem[..], blocks, frozen) && f0 <= frozen
      && WritesOnly(m0, r.mem[..], out, blocks)
      && NewestZeroed(r.mem[..])
    }

    /** Takes n zeroed bytes at the end. */
    method TakeBlock(n: nat, ghost out0: Buffer, ghost out1: Buffer)
      requires BlockAt(out0, n) >= 0 && out == out1 && out1.data == BlockAt(out0, n)
      requires ArenaOk(out1, blocks + [Block(BlockAt(out0, n), n)], r.mem.Length)
      requires FrozenOk(r.mem[..], blocks, frozen)
      modifies this`blocks, this`frozen, r.mem
      ensures blocks == old(blocks) + [Block(out.data, n)]
      ensures FrozenOk(r.mem[..], blocks, frozen) && old(frozen) <= frozen
      ensures WritesOnly(old(r.mem[..]), r.mem[..], out, blocks)
      ensures Slice(r.mem[..], Block(out.data, n)) == seq(n, _ => 0)
    {
      hide ArenaOk, FrozenOk;
      ghost var b := Block(out.data, n);
      ghost var m0, f0, before := r.mem[..], frozen, blocks;
      LastInside(out1, blocks + [b], r.mem.Length);
      r.Fill(out.data, 0, n);
      frozen := if blocks == [] then frozen else frozen + [Slice(m0, blocks[|blocks| - 1])];
      blocks := blocks + [b];
      FreezeLast(m0, r.mem[..], out1, before, b, f0);
      assert Slice(r.mem[..], b) == Part(r.mem[..], out.data, n);
    }

    /** A pattern item: room for spec, last and mask. It fails exactly when the item and its block do
        not fit between both ends. */
    method OpenItem(i: nat, t: Token, ghost v0: View) returns (ok: bool)
      requires StateOk(v0) && v0.next != [] && TokenFits(Top(v0), i, t) && Top(v0) == Items
               && |v0.next| == |v0.owed| == 1
      requires V() == v0.(objdata := 0, obj := 8, objmask := None) && FrozenOk(r.mem[..], blocks, frozen)
      requires t.priv.Some? && ArenaOk(out, blocks, r.mem.Length) && out.pattern != 0 && out.actions == 0
      modifies this`objdata, this`out, this`blocks, this`frozen, r`obj, r`objmask, r.mem
      ensures ok <==> Front(v0.out) + ITEM <= BlockAt(v0.out, 3 * t.priv.value.size)
      ensures Unmatched(v0, old(r.args))
      ensures ok ==> Opened(ItemView(v0, t.priv.value.kind, t.priv.value.size), old(r.mem[..]), old(frozen))
      ensures ok ==>
                out.items == old(out).items + [Item(t.priv.value.kind, None, None, None)] && out.acts == old(out).acts
      ensures ok ==> StateOk(Push(V(), t)) && Grows(v0.out, out)
    {
      hide StateOk, Push, Synced, Pending, SameBut, FrozenOk, WritesOnly, ArenaOk, WellFormed, RssEnvOk;
      var priv := t.priv.value;
      var dataSize := priv.size * 3;
      var data := AlignFloor(out.data - dataSize);
      var item := out.pattern + ITEM * |out.items|;
      if item + ITEM > data {
        return false;
      }
      OpenItemKeepsArena(out, blocks, r.mem.Length, priv.kind, dataSize);
      ItemStep(v0, i, t);
      ghost var out0 := out;
      out := out.(items := out.items + [Item(priv.kind, None, None, None)], data := data);
      r.obj := item;
      r.objmask := None;
      TakeBlock(dataSize, out0, out);
      objdata := dataSize;
      return true;
    }

    /** An action with its configuration */
    method OpenAction(i: nat, t: Token, ghost v0: View) returns (ok: bool)
      requires StateOk(v0) && v0.next != [] && TokenFits(Top(v0), i, t) && Top(v0) == Actions
               && |v0.next| == |v0.owed| == 1
      requires V() == v0.(objdata := 0, obj := 8, objmask := None) && FrozenOk(r.mem[..], blocks, frozen)
      requires t.priv.Some? && ArenaOk(out, blocks, r.mem.Length) && out.actions != 0
      modifies this`objdata, this`out, this`blocks, this`frozen, r`obj, r`objmask, r.mem
      ensures ok <==> Front(v0.out) + ACT <= BlockAt(v0.out, t.priv.value.size)
      ensures Unmatched(v0, old(r.args))
      ensures ok ==> Opened(ActView(v0, t.priv.value.kind, t.priv.value.size), old(r.mem[..]), old(frozen))
      ensures ok ==>
        && out.items == old(out).items
        && out.acts == old(out).acts + [Act(t.priv.value.kind, if t.priv.value.size == 0 then None else Some(out.data))]
      ensures ok && t.call == Vc ==> StateOk(Push(V(), t))
      ensures ok ==> Grows(v0.out, out)
    {
      hide StateOk, Push, Synced, Pending, SameBut, FrozenOk, WritesOnly, ArenaOk, WellFormed, RssEnvOk;
      var priv := t.priv.value;
      var dataSize := priv.size;
      var data := AlignFloor(out.data - dataSize);
      var action := out.actions + ACT * |out.acts|;
      if action + ACT > data {
        return false;
      }
      OpenActKeepsArena(out, blocks, r.mem.Length, priv.kind, dataSize);
      ActionStep(v0, i, t);
      ghost var out0 := out;
      out := out.(acts := out.acts + [Act(priv.kind, if dataSize != 0 then Some(data as nat) else None)], data := data);
      r.obj := action;
      r.objmask := None;
      TakeBlock(dataSize, out0, out);
      objdata := dataSize;
      return true;
    }

    // ----- parameters of items and actions -----

    /** parse_vc_spec() */
    method ParseVcSpec(i: nat, t: Token, text: string) returns (ok: bool)
      requires t.name == text ==> Candidate(i, t) && t.call == VcSpec
      modifies this`next, this`out, r`obj, r`objmask
      ensures ok <==> t.name == text
      ensures !ok ==> V() == old(V())
      ensures ok ==> Called(old(V()), old(r.args), r.mem[..], frozen, i, t, text)
      ensures ok ==> old(out).items != [] && V() == ParamView(old(V()), i).(next := next)
      ensures ok ==> Chosen(old(V()), Bare(V()), i)
    {
      hide StateOk, Push, Synced, Pending, FrozenOk, TokenFits, ParamView, WritesOnly, WellFormed, RssEnvOk;
      if t.name != text {
        return false;
      }
      ghost var v0 := V();
      ParamPlace(v0, i, t);
      ParamStep(v0, i, t);
      assert r.args == r.args[..|r.args| - 0];
      if i == ITEM_PARAM_PREFIX {
        if |next| < 2 {
          return false;
        }
        next := next[|next| - 2 := PrefixList];
      }
      if |out.items| == 0 {
        return false;
      }
      ghost var v1 := V();
      SelectThird(i);
      ParamFrame(v1, i);
      ParamFrame(v0, i);
      ParamMeans(v0, i);
      Unwritten(out, out);
      return true;
    }

    lemma ParamFrame(v: View, i: nat)
      requires v.out.items != []
      ensures ParamView(v, i).next == v.next && ParamView(v, i).owed == v.owed
      ensures forall next: seq<TokenList> :: ParamView(v.(next := next), i) == ParamView(v, i).(next := next)
      ensures Grows(v.out, ParamView(v, i).out)
    {}

    /** Points the object to spec, last or mask, and the full mask to mask. */
    method SelectThird(i: nat)
      requires out.items != []
      requires i in {ITEM_PARAM_IS, ITEM_PARAM_SPEC, ITEM_PARAM_LAST, ITEM_PARAM_MASK, ITEM_PARAM_PREFIX}
      modifies this`out, r`obj, r`objmask
      ensures V() == ParamView(old(V()), i)
    {
      var index: nat, full := 0, false;
      if i == ITEM_PARAM_IS {
        full := true;
      } else if i == ITEM_PARAM_LAST {
        index := 1;
      } else if i == ITEM_PARAM_MASK || i == ITEM_PARAM_PREFIX {
        index := 2;
      }
      var dataSize := objdata / 3;
      r.obj := out.data + dataSize * index;
      var item := out.items[|out.items| - 1];
      if full {
        r.objmask := Some(out.data + dataSize * 2);
        item := item.(mask := r.objmask);
      } else {
        r.objmask := None;
      }
      if index == 0 {
        item := item.(spec := Some(r.obj));
      } else if index == 1 {
        item := item.(last := Some(r.obj));
      } else {
        item := item.(mask := Some(r.obj));
      }
      out := out.(items := out.items[|out.items| - 1 := item]);
    }

    lemma ParamPlace(v: View, i: nat, t: Token)
      requires StateOk(v) && v.next != [] && TokenFits(Top(v), i, t) && t.call == VcSpec
      ensures Top(v).Param? && |v.next| == |v.owed| == 3
      ensures i in {ITEM_PARAM_IS, ITEM_PARAM_SPEC, ITEM_PARAM_LAST, ITEM_PARAM_MASK, ITEM_PARAM_PREFIX}
    {
      hide ArenaOk, AllWithin, HeaderRooms, EntryRooms, NoEndItem, NoEndAct, ItemsEnded, ActsEnded;
    }

    /** parse_vc_conf() */
    method ParseVcConf(i: nat, t: Token, text: string) returns (ok: bool)
      requires t.name == text ==> Candidate(i, t) && t.call == VcConf
      modifies r`obj, r`objmask
      ensures ok <==> t.name == text
      ensures !ok ==> V() == old(V())
      ensures ok ==> Called(old(V()), old(r.args), r.mem[..], frozen, i, t, text)
      ensures ok ==> V() == old(V()).(obj := out.data, objmask := None)
    {
      hide StateOk, Push, Synced, Pending, FrozenOk, WritesOnly, Grows, TokenFits, WellFormed, RssEnvOk;
      if t.name != text {
        return false;
      }
      ConfPlace(V(), i, t);
      ActionFieldStep(V(), i, t);
      Unwritten(out, out);
      assert r.args == r.args[..|r.args| - 0];
      r.obj := out.data;
      r.objmask := None;
      return true;
    }

    lemma ConfPlace(v: View, i: nat, t: Token)
      requires StateOk(v) && v.next != [] && TokenFits(Top(v), i, t) && t.call == VcConf
      ensures Top(v).ActionField? && |v.next| == |v.owed| == 1
    {
      hide ArenaOk, AllWithin, HeaderRooms, EntryRooms, NoEndItem, NoEndAct, ItemsEnded, ActsEnded;
    }

    // ----- the RSS action -----

    /** The bytes of the configuration up to its queues: function, level, types, lengths, pointers and key. */
    function RssHead(address: nat): (b: seq<bv8>)
      requires RssEnvOk(rss)
      ensures |b| == 104
    {
      IntBytes(0, 4, false) + IntBytes(0, 4, false) + rss.hf + IntBytes(rss.keyLen, 4, false)
      + IntBytes(RssQueues(), 4, false) + IntBytes(address + 40, 8, false) + IntBytes(address + 104, 8, false) + rss.key
    }

    function RssQueues(): nat {
      if rss.queues < ACTION_RSS_QUEUE_NUM then rss.queues else ACTION_RSS_QUEUE_NUM
    }

    ghost predicate QueuesAre(m: seq<bv8>, at: nat, n: nat) {
      n <= ACTION_RSS_QUEUE_NUM && at + RSS_SIZE <= |m|
      && forall q :: 0 <= q < ACTION_RSS_QUEUE_NUM ==>
           Part(m, at + 104 + 2 * q, 2) == if q < n then IntBytes(q, 2, false) else [0, 0]
    }

    /** The default configuration, field by field: as many queues as the port has, up to 32, in order,
        and zeros behind them. */
    ghost predicate RssDefaults(m: seq<bv8>, at: nat) {
      && RssEnvOk(rss) && at + RSS_SIZE <= |m|
      && var n := if rss.queues < 32 then rss.queues else 32;
      // function, level, types
      && Part(m, at, 4) == IntBytes(0, 4, false) && Part(m, at + 4, 4) == IntBytes(0, 4, false)
      && Part(m, at + 8, 8) == rss.hf
      // length of the key, number of queues
      && Part(m, at + 16, 4) == IntBytes(rss.keyLen, 4, false) && Part(m, at + 20, 4) == IntBytes(n, 4, false)
      // where the key and the queues are, and what they are
      && Part(m, at + 24, 8) == IntBytes(r.base + at + 40, 8, false)
      && Part(m, at + 32, 8) == IntBytes(r.base + at + 104, 8, false)
      && Part(m, at + 40, 64) == rss.key && QueuesAre(m, at, n)
    }

    lemma HeadFields(m: seq<bv8>, at: nat)
      requires RssEnvOk(rss) && at + RSS_SIZE <= |m|
      requires Part(m, at, 104) == RssHead(r.base + at) && QueuesAre(m, at, RssQueues())
      ensures RssDefaults(m, at)
    {
      hide IntBytes, QueuesAre;
      var h := RssHead(r.base + at);
      HeadPart(m, at, 0, 4);
      HeadPart(m, at, 4, 4);
      HeadPart(m, at, 8, 8);
      HeadPart(m, at, 16, 4);
      HeadPart(m, at, 20, 4);
      HeadPart(m, at, 24, 8);
      HeadPart(m, at, 32, 8);
      HeadPart(m, at, 40, 64);
      var h2 := IntBytes(0, 4, false) + IntBytes(0, 4, false);
      var h3 := h2 + rss.hf;
      var h4 := h3 + IntBytes(rss.keyLen, 4, false);
      var h5 := h4 + IntBytes(RssQueues(), 4, false);
      var h6 := h5 + IntBytes(r.base + at + 40, 8, false);
      var h7 := h6 + IntBytes(r.base + at + 104, 8, false);
      assert h == h7 + rss.key && h[40..104] == rss.key;
      assert h7[32..40] == IntBytes(r.base + at + 104, 8, false) && h[32..40] == h7[32..40];
      assert h6[24..32] == IntBytes(r.base + at + 40, 8, false) && h[24..32] == h6[24..32];
      assert h5[20..24] == IntBytes(RssQueues(), 4, false) && h[20..24] == h5[20..24];
      assert h4[16..20] == IntBytes(rss.keyLen, 4, false) && h[16..20] == h4[16..20];
      assert h3[8..16] == rss.hf && h[8..16] == h3[8..16];
      assert h[0..4] == h2[0..4] == IntBytes(0, 4, false) && h[4..8] == h2[4..8] == IntBytes(0, 4, false);
    }

    lemma HeadPart(m: seq<bv8>, at: nat, off: nat, n: nat)
      requires RssEnvOk(rss) && at + RSS_SIZE <= |m| && off + n <= 104
      requires Part(m, at, 104) == RssHead(r.base + at)
      ensures Part(m, at + off, n) == RssHead(r.base + at)[off..off + n]
    {
      hide RssHead;
      var all, part := Part(m, at, 104), Part(m, at + off, n);
      forall k | 0 <= k < n
        ensures part[k] == all[off..off + n][k]
      {}
    }

    method WriteRssDefaults(at: nat)
      requires RssEnvOk(rss) && at + RSS_SIZE <= r.mem.Length
      modifies r.mem
      ensures RssDefaults(r.mem[..], at) && SameBut(old(r.mem[..]), r.mem[..], at, at + RSS_SIZE)
    {
      hide IntBytes, RssHead, Part, SameBut, QueuesAre;
      ghost var m0 := r.mem[..];
      r.Put(at, RssHead(r.base + at));
      Within104(m0, r.mem[..], at, at, 104);
      ghost var m1 := r.mem[..];
      r.Fill(at + 104, 0, 64);
      PartStays(m1, r.mem[..], at + 104, 64, at, 104);
      SameTwice(m0, m1, r.mem[..], at, at + 104, 64);
      NoQueues(r.mem[..], at);
      var q: nat := 0;
      while q < RssQueues()
        invariant q <= RssQueues()
        invariant Part(r.mem[..], at, 104) == RssHead(r.base + at)
        invariant QueuesAre(r.mem[..], at, q) && SameBut(m0, r.mem[..], at, at + RSS_SIZE)
      {
        ghost var m := r.mem[..];
        r.Put(at + 104 + 2 * q, IntBytes(q, 2, false));
        PartStays(m, r.mem[..], at + 104 + 2 * q, 2, at, 104);
        NextQueue(m, r.mem[..], at, q);
        SameTwice(m0, m, r.mem[..], at, at + 104 + 2 * q, 2);
        q := q + 1;
      }
      HeadFields(r.mem[..], at);
    }

    lemma NoQueues(m: seq<bv8>, at: nat)
      requires at + RSS_SIZE <= |m| && Part(m, at + 104, 64) == seq(64, _ => 0)
      ensures QueuesAre(m, at, 0)
    {
      forall q | 0 <= q < ACTION_RSS_QUEUE_NUM
        ensures Part(m, at + 104 + 2 * q, 2) == [0, 0]
      {
        var all, part := Part(m, at + 104, 64), Part(m, at + 104 + 2 * q, 2);
        assert part[0] == all[2 * q] && part[1] == all[2 * q + 1];
      }
    }

    lemma NextQueue(m: seq<bv8>, m': seq<bv8>, at: nat, q: nat)
      requires QueuesAre(m, at, q) && q < ACTION_RSS_QUEUE_NUM && at + RSS_SIZE <= |m|
      requires |m'| == |m| && SameBut(m, m', at + 104 + 2 * q, at + 104 + 2 * q + 2)
      requires Part(m', at + 104 + 2 * q, 2) == IntBytes(q, 2, false)
      ensures QueuesAre(m', at, q + 1)
    {
      hide SameBut, Part, IntBytes;
      forall p | 0 <= p < ACTION_RSS_QUEUE_NUM
        ensures Part(m', at + 104 + 2 * p, 2) == if p < q + 1 then IntBytes(p, 2, false) else [0, 0]
      {
        if p != q {
          PartStays(m, m', at + 104 + 2 * q, 2, at + 104 + 2 * p, 2);
          assert Part(m, at + 104 + 2 * p, 2) == if p < q then IntBytes(p, 2, false) else [0, 0];
        }
      }
    }

    lemma Within104(m0: seq<bv8>, m1: seq<bv8>, at: nat, lo: nat, n: nat)
      requires SameBut(m0, m1, lo, lo + n) && at <= lo && lo + n <= at + RSS_SIZE
      ensures SameBut(m0, m1, at, at + RSS_SIZE)
    {}

    lemma SameTwice(m0: seq<bv8>, m1: seq<bv8>, m2: seq<bv8>, at: nat, lo: nat, n: nat)
      requires SameBut(m0, m1, at, at + RSS_SIZE) && SameBut(m1, m2, lo, lo + n) && at <= lo && lo + n <= at + RSS_SIZE
      ensures SameBut(m0, m2, at, at + RSS_SIZE)
    {}

    lemma PartStays(m: seq<bv8>, m': seq<bv8>, lo: nat, n: nat, at: nat, k: nat)
      requires SameBut(m, m', lo, lo + n) && at + k <= |m| && (at + k <= lo || lo + n <= at)
      ensures Part(m', at, k) == Part(m, at, k)
    {}

    /** parse_vc_action_rss() */
    method ParseVcActionRss(i: nat, t: Token, text: string) returns (ok: bool)
      requires t.name == text ==> Candidate(i, t) && t.call == VcActionRss
      modifies this`objdata, this`out, this`blocks, this`frozen, r`obj, r`objmask, r.mem
      ensures t.name != text ==> !ok && r.mem[..] == old(r.mem[..]) && V() == old(V()) && frozen == old(frozen)
      ensures Unmatched(old(V()), old(r.args))
      ensures ok ==> Called(old(V()), old(r.args), old(r.mem[..]), old(frozen), i, t, text)
      ensures ok ==> RssDefaults(r.mem[..], out.data)
      ensures ok <==> t.name == text && VcFits(old(V()), i, t)
      ensures ok ==> var a := VcView(old(V()), i, t); V() == a.(obj := a.out.data, objmask := None)
    {
      hide StateOk, Push, Synced, Pending, FrozenOk, WritesOnly, Grows, ArenaOk, Slice, RssDefaults, Front,
        BlockAt, SameBut, TokenFits, WithAct, WellFormed, RssEnvOk, VcView, VcFits, Special;
      if t.name != text {
        return false;
      }
      ghost var v0, m0 := V(), r.mem[..];
      RssPlace(v0, i, t);
      RssView(v0, i, t);
      ok := ParseVc(i, t, text);
      if !ok {
        return;
      }
      ActGrows(v0, t.priv.value.kind, t.priv.value.size);
      if |out.acts| == 0 {
        return false;
      }
      ActionStep(v0, i, t);
      r.obj := out.data;
      r.objmask := None;
      ghost var m1 := r.mem[..];
      PushedArena(V(), t);
      WriteRssDefaults(out.data);
      NewestWritten(out, blocks, m0, m1, r.mem[..], out.data, RSS_SIZE, frozen);
      assert r.args == r.args[..|r.args| - 0];
    }

    lemma RssPlace(v: View, i: nat, t: Token)
      requires StateOk(v) && v.next != [] && TokenFits(Top(v), i, t) && t.call == VcActionRss
      ensures Top(v) == Actions && |v.next| == |v.owed| == 1 && t.priv.Some? && t.priv.value.size == RSS_SIZE
      ensures v.out.command != 0 && v.out.actions != 0 && !Special(i)
    {
      hide ArenaOk, AllWithin, HeaderRooms, EntryRooms, NoEndItem, NoEndAct, ItemsEnded, ActsEnded;
    }

    lemma RssView(v: View, i: nat, t: Token)
      requires v.out.command != 0 && v.out.actions != 0 && !Special(i) && t.priv.Some?
      ensures VcFits(v, i, t) <==> Front(v.out) + ACT <= BlockAt(v.out, t.priv.value.size)
      ensures VcFits(v, i, t) ==> VcView(v, i, t) == ActView(v, t.priv.value.kind, t.priv.value.size)
    {}

    lemma ActGrows(v: View, kind: nat, size: nat)
      requires BlockAt(v.out, size) >= 0
      ensures |ActView(v, kind, size).out.acts| == |v.out.acts| + 1
    {}

    lemma PushedArena(v: View, t: Token)
      requires v.next != [] && v.owed != [] && StateOk(Push(v, t)) && v.blocks != []
      ensures IsVc(v.out) && ArenaOk(v.out, v.blocks, v.size)
      ensures v.out.data + v.blocks[|v.blocks| - 1].size <= v.size && v.out.data == v.blocks[|v.blocks| - 1].at
    {
      hide StateOk;
      HasArena(Push(v, t));
      LastInside(v.out, v.blocks, v.size);
    }

    /** A write to the newest block. */
    lemma NewestWritten(o: Buffer, bs: seq<Block>, m0: seq<bv8>, m1: seq<bv8>, m2: seq<bv8>, at: nat, n: nat,
                        f: seq<seq<bv8>>)
      requires bs != [] && bs[|bs| - 1].at <= at && at + n <= EndOf(bs[|bs| - 1])
      requires IsVc(o) && ArenaOk(o, bs, |m1|)
      requires WritesOnly(m0, m1, o, bs) && SameBut(m1, m2, at, at + n) && FrozenOk(m1, bs, f)
      ensures WritesOnly(m0, m2, o, bs) && FrozenOk(m2, bs, f)
    {
      hide ArenaOk, FrozenOk;
      KeepFrozen(m1, m2, o, bs, f);
    }

    /** Where the tokens of the RSS lists stand: the object is the configuration of the action, in the
        newest block. */
    lemma RssListPlace(v: View, i: nat, t: Token, m: seq<bv8>, f: seq<seq<bv8>>)
      requires StateOk(v) && v.next != [] && TokenFits(Top(v), i, t) && t.call in {RssFunc, RssType, RssQueue}
      requires |m| == v.size && FrozenOk(m, v.blocks, f)
      ensures Top(v) == Rss && |v.next| == |v.owed| == 2 && t.next == [] && t.args == []
      ensures v.obj == v.out.data && v.objmask == None && v.objdata / 0x1_0000 <= ACTION_RSS_QUEUE_NUM
      ensures v.blocks != [] && v.blocks[|v.blocks| - 1] == Block(v.obj, RSS_SIZE) && v.obj + RSS_SIZE <= v.size
      ensures IsVc(v.out) && ArenaOk(v.out, v.blocks, v.size)
      ensures t.call == RssType ==> i == ACTION_RSS_TYPE
      ensures t.call == RssQueue ==> i == ACTION_RSS_QUEUE
    {
      hide AllWithin, HeaderRooms, EntryRooms, NoEndItem, NoEndAct, ItemsEnded, ActsEnded, FrozenOk, Stacked,
        ItemsPoint, ActsPoint;
      LastInside(v.out, v.blocks, v.size);
    }

    /** A token of an RSS list: the list is left, or kept. */
    lemma RssCalled(v: View, v': View, i: nat, t: Token, text: string, keep: bool)
      requires StateOk(v) && v.next != [] && Top(v) == Rss && t.next == [] && t.args == []
      requires v'.objdata / 0x1_0000 <= ACTION_RSS_QUEUE_NUM
      requires v' == if keep
                     then v.(objdata := v'.objdata, next := v.next + [TokenList(Rss, [i])], owed := v.owed + [[]])
                     else v.(objdata := v'.objdata)
      ensures v'.next != [] && |v'.owed| == |v'.next| && StateOk(Push(v', t))
    {
      hide StateOk, BaseOk;
      RssStep(v, t, v'.objdata);
      if keep {
        SplitNone();
        assert v'.next[..|v'.next| - 1] + t.next == v.next;
        assert v'.owed[..|v'.owed| - 1] + [] == v.owed;
        assert Push(v', t) == v.(objdata := v'.objdata);
      }
    }

    /** Only the configuration of the action has been written, and the list is left, or kept. */
    lemma RssIsCalled(v0: View, args0: seq<Arg>, m0: seq<bv8>, i: nat, t: Token, text: string)
      requires StateOk(v0) && v0.next != [] && TokenFits(Top(v0), i, t) && t.call in {RssFunc, RssType, RssQueue}
      requires |m0| == v0.size && FrozenOk(m0, v0.blocks, frozen) && r.args == args0
      requires objdata / 0x1_0000 <= ACTION_RSS_QUEUE_NUM
      requires V() == v0.(objdata := objdata, next := CalledNext(v0.next, i, t.call, text),
                          owed := CalledOwed(v0.owed, i, t.call, text))
      requires SameBut(m0, r.mem[..], r.obj, r.obj + RSS_SIZE)
      ensures Called(v0, args0, m0, frozen, i, t, text)
    {
      hide StateOk, Push, FrozenOk, WritesOnly, ArenaOk, SameBut, TokenFits, Grows;
      RssListPlace(v0, i, t, m0, frozen);
      Unwritten(out, out);
      RssCalled(v0, V(), i, t, text, t.call != RssFunc && text != "end");
      NewestWritten(out, blocks, m0, m0, r.mem[..], r.obj, RSS_SIZE, frozen) by {
        NothingWritten(m0);
      }
      assert args0 == args0[..|args0| - 0];
    }

    lemma NothingWritten(m: seq<bv8>)
      ensures WritesOnly(m, m, out, blocks)
    {}

    /** parse_vc_action_rss_func() */
    method ParseRssFunc(i: nat, t: Token, text: string) returns (ok: bool)
      requires t.name == text ==> Candidate(i, t) && t.call == RssFunc
      modifies r.mem
      ensures ok <==> t.name == text
                      && i in {ACTION_RSS_FUNC_DEFAULT, ACTION_RSS_FUNC_TOEPLITZ, ACTION_RSS_FUNC_SIMPLE_XOR}
      ensures !ok ==> r.mem[..] == old(r.mem[..])
      ensures ok ==> Called(old(V()), old(r.args), old(r.mem[..]), frozen, i, t, text)
      ensures ok ==> r.obj + 4 <= r.mem.Length && i >= ACTION_RSS_FUNC_DEFAULT
                     && Part(r.mem[..], r.obj, 4) == IntBytes(i - ACTION_RSS_FUNC_DEFAULT, 4, false)
    {
      hide StateOk, Synced, Pending, FrozenOk, ArenaOk, SameBut, TokenFits, IntBytes, Part, Called, WellFormed,
        RssEnvOk;
      if t.name != text {
        return false;
      }
      var func: nat := 0;
      if i == ACTION_RSS_FUNC_TOEPLITZ {
        func := 1;
      } else if i == ACTION_RSS_FUNC_SIMPLE_XOR {
        func := 2;
      } else if i != ACTION_RSS_FUNC_DEFAULT {
        return false;
      }
      ghost var v0, m0 := V(), r.mem[..];
      RssListPlace(v0, i, t, m0, frozen);
      r.Put(r.obj, IntBytes(func, 4, false));
      Within104(m0, r.mem[..], r.obj, r.obj, 4);
      RssIsCalled(v0, r.args, m0, i, t, text);
      return true;
    }

    /** conf.types |= bits */
    method OrTypes(bits: seq<bv8>)
      requires |bits| == 8 && r.obj + 16 <= r.mem.Length
      modifies r.mem
      ensures SameBut(old(r.mem[..]), r.mem[..], r.obj + 8, r.obj + 16)
      ensures forall k :: 0 <= k < 8 ==> r.mem[r.obj + 8 + k] == old(r.mem[r.obj + 8 + k]) | bits[k]
    {
      var k: nat := 0;
      while k < 8
        invariant k <= 8
        invariant SameBut(old(r.mem[..]), r.mem[..], r.obj + 8, r.obj + 8 + k)
        invariant forall j :: 0 <= j < k ==> r.mem[r.obj + 8 + j] == old(r.mem[r.obj + 8 + j]) | bits[j]
      {
        ghost var m := r.mem[..];
        assert m[r.obj + 8 + k] == old(r.mem[..])[r.obj + 8 + k];
        r.mem[r.obj + 8 + k] := r.mem[r.obj + 8 + k] | bits[k];
        k := k + 1;
      }
    }

    lemma SameAnyway(m0: seq<bv8>, m1: seq<bv8>, lo: nat, n: nat)
      requires m0 == m1 || SameBut(m0, m1, lo, lo + n)
      ensures SameBut(m0, m1, lo, lo + n)
    {}

    /** The types of the configuration: the bits are added to those there were, or replace them. */
    ghost predicate TypesAdded(m0: seq<bv8>, m1: seq<bv8>, at: nat, first: bool, bits: seq<bv8>) {
      && |m0| == |m1| && at + 16 <= |m0| && |bits| == 8 && SameBut(m0, m1, at + 8, at + 16)
      && forall k :: 0 <= k < 8 ==> m1[at + 8 + k] == (if first then 0 else m0[at + 8 + k]) | bits[k]
    }

    /** The bits a word of the type list stands for */
    function TypeBits(text: string): (bits: seq<bv8>)
      requires RssEnvOk(rss)
      ensures |bits| == 8
    {
      var k := FirstName(TypeNames(rss), text);
      if text == "end" || k == |rss.types| then seq(8, _ => 0) else rss.types[k].1
    }

    /** The first type of a list replaces the default ones. */
    method ClearTypes()
      requires r.obj + RSS_SIZE <= r.mem.Length
      modifies r.mem
      ensures SameBut(old(r.mem[..]), r.mem[..], r.obj, r.obj + RSS_SIZE)
      ensures TypesAdded(old(r.mem[..]), r.mem[..], r.obj, objdata / 0x1_0000 == 0, seq(8, _ => 0))
    {
      hide Part, Over;
      ghost var m0 := r.mem[..];
      if objdata / 0x1_0000 == 0 {
        r.Fill(r.obj + 8, 0, 8);
        Cleared(m0, r.mem[..], r.obj);
      } else {
        NoTypes(m0, r.obj);
      }
    }

    lemma Cleared(m0: seq<bv8>, m1: seq<bv8>, at: nat)
      requires at + 16 <= |m0| && SameBut(m0, m1, at + 8, at + 16) && Part(m1, at + 8, 8) == seq(8, _ => 0)
      ensures TypesAdded(m0, m1, at, true, seq(8, _ => 0))
    {
      var part := Part(m1, at + 8, 8);
      forall k | 0 <= k < 8
        ensures m1[at + 8 + k] == part[k] == 0
      {}
    }

    lemma NoTypes(m: seq<bv8>, at: nat)
      requires at + 16 <= |m|
      ensures TypesAdded(m, m, at, false, seq(8, _ => 0))
    {}

    lemma TypesBoth(m0: seq<bv8>, m1: seq<bv8>, m2: seq<bv8>, at: nat, first: bool, bits: seq<bv8>)
      requires TypesAdded(m0, m1, at, first, seq(8, _ => 0)) && |bits| == 8 && SameBut(m1, m2, at + 8, at + 16)
      requires forall k :: 0 <= k < 8 ==> m2[at + 8 + k] == m1[at + 8 + k] | bits[k]
      ensures TypesAdded(m0, m2, at, first, bits)
    {
      var none: seq<bv8> := seq(8, _ => 0);
      forall k | 0 <= k < 8
        ensures m2[at + 8 + k] == (if first then 0 else m0[at + 8 + k]) | bits[k]
      {
        assert none[k] == 0;
        NoBits(if first then 0 else m0[at + 8 + k]);
      }
    }

    lemma NoBits(b: bv8)
      ensures b | 0 == b
    {}

    /** parse_vc_action_rss_type() */
    method ParseRssType(i: nat, t: Token, text: string) returns (ok: bool)
      requires Candidate(i, t) && t.call == RssType
      modifies this`next, this`owed, this`objdata, r.mem
      ensures ok <==> text == "end" || FirstName(TypeNames(rss), text) < |rss.types|
      ensures ok ==> Called(old(V()), old(r.args), old(r.mem[..]), frozen, i, t, text)
      ensures !ok ==> Unmatched(old(V()), old(r.args))
      // the first word of a list clears the types, whether or not it is one
      ensures TypesAdded(old(r.mem[..]), r.mem[..], r.obj, old(objdata) / 0x1_0000 == 0, TypeBits(text))
      ensures objdata == if !ok then old(objdata)
                         else (if text == "end" then 0 else 0x1_0000) + old(objdata) % 0x1_0000
    {
      hide StateOk, Synced, Pending, FrozenOk, ArenaOk, SameBut, TokenFits, Part, Called, WellFormed, TypesAdded;
      ghost var v0, m0 := V(), r.mem[..];
      RssListPlace(v0, i, t, m0, frozen);
      ClearTypes();
      if text == "end" {
        objdata := objdata % 0x1_0000;
        RssIsCalled(v0, r.args, m0, i, t, text);
        return true;
      }
      var k := FindName(TypeNames(rss), text);
      FirstIs(TypeNames(rss), text, k);
      if k == |rss.types| {
        return false;
      }
      objdata := 0x1_0000 + objdata % 0x1_0000;
      if |next| == CTX_STACK_SIZE {
        return false;
      }
      next := next + [TokenList(Rss, [ACTION_RSS_TYPE])];
      owed := owed + [[]];
      ghost var m1 := r.mem[..];
      OrTypes(rss.types[k].1);
      SameTwice(m0, m1, r.mem[..], r.obj, r.obj + 8, 8);
      TypesBoth(m0, m1, r.mem[..], r.obj, old(objdata) / 0x1_0000 == 0, rss.types[k].1);
      RssIsCalled(v0, r.args, m0, i, t, text);
      return true;
    }

    /** The configuration says it has n' queues and where they are; the first n are those of before. */
    ghost predicate QueuesHeld(m0: seq<bv8>, m1: seq<bv8>, n: nat, n': nat)
      reads r`obj
    {
      && |m0| == |m1| && n <= ACTION_RSS_QUEUE_NUM && r.obj + RSS_SIZE <= |m0|
      && Part(m1, r.obj + 20, 4) == IntBytes(n', 4, false)
      && Part(m1, r.obj + 32, 8) == IntBytes(if n' > 0 then r.base + r.obj + 104 else 0, 8, false)
      && Part(m1, r.obj + 104, 2 * n) == Part(m0, r.obj + 104, 2 * n)
    }

    /** parse_vc_action_rss_queue() */
    method ParseRssQueue(i: nat, t: Token, text: string, num: Num) returns (ok: bool)
      requires Candidate(i, t) && t.call == RssQueue && NumOk(num)
      modifies this`next, this`owed, this`objdata, r`args, r.mem
      ensures ok <==> text == "end" || (old(objdata) / 0x1_0000 < ACTION_RSS_QUEUE_NUM && num.unsigned.Some?)
      ensures ok ==> Called(old(V()), old(r.args), old(r.mem[..]), frozen, i, t, text)
      ensures !ok ==> Unmatched(old(V()), old(r.args)) && r.mem[..] == old(r.mem[..])
      // one more queue, or the end of the list: their number, their address and the earlier ones
      ensures ok ==>
        var n := old(objdata) / 0x1_0000;
        && QueuesHeld(old(r.mem[..]), r.mem[..], n, if text == "end" then n else n + 1)
        && (text != "end" ==> Part(r.mem[..], r.obj + 104 + 2 * n, 2) == IntBytes(num.unsigned.value, 2, false))
        && objdata == (if text == "end" then 0 else (n + 1) * 0x1_0000) + old(objdata) % 0x1_0000
    {
      hide StateOk, Synced, Pending, FrozenOk, ArenaOk, SameBut, TokenFits, Part, IntBytes, Called, WellFormed,
        RssEnvOk;
      ghost var v0, m0 := V(), r.mem[..];
      RssListPlace(v0, i, t, m0, frozen);
      DepthBound(v0, r.args);
      var n := objdata / 0x1_0000;
      if text == "end" {
        objdata := objdata % 0x1_0000;
        SameAnyway(m0, m0, r.obj, RSS_SIZE);
      } else {
        if n >= ACTION_RSS_QUEUE_NUM {
          return false;
        }
        ok := StoreQueue(n, num);
        if !ok {
          return;
        }
        Within104(m0, r.mem[..], r.obj, r.obj + 104 + 2 * n, 2);
        n := n + 1;
        objdata := n * 0x1_0000 + objdata % 0x1_0000;
        if |next| == CTX_STACK_SIZE {
          return false;
        }
        next := next + [TokenList(Rss, [ACTION_RSS_QUEUE])];
        owed := owed + [[]];
      }
      ghost var m1 := r.mem[..];
      SetQueues(n);
      SameTwice(m0, m1, r.mem[..], r.obj, r.obj + 20, 20);
      QueuesStay(m0, m1, r.mem[..], v0.objdata / 0x1_0000);
      RssIsCalled(v0, r.args, m0, i, t, text);
      ok := true;
    }

    lemma QueuesStay(m0: seq<bv8>, m1: seq<bv8>, m2: seq<bv8>, n: nat)
      requires n <= ACTION_RSS_QUEUE_NUM && r.obj + RSS_SIZE <= |m0|
      requires m0 == m1 || (n < ACTION_RSS_QUEUE_NUM && SameBut(m0, m1, r.obj + 104 + 2 * n, r.obj + 106 + 2 * n))
      requires SameBut(m1, m2, r.obj + 20, r.obj + 40)
      ensures Part(m2, r.obj + 104, 2 * n) == Part(m0, r.obj + 104, 2 * n)
      ensures n < ACTION_RSS_QUEUE_NUM ==> Part(m2, r.obj + 104 + 2 * n, 2) == Part(m1, r.obj + 104 + 2 * n, 2)
    {
      PartStays(m1, m2, r.obj + 20, 20, r.obj + 104, 2 * n);
      if n < ACTION_RSS_QUEUE_NUM {
        PartStays(m1, m2, r.obj + 20, 20, r.obj + 104 + 2 * n, 2);
      }
      if m0 != m1 {
        PartStays(m0, m1, r.obj + 104 + 2 * n, 2, r.obj + 104, 2 * n);
      }
    }

    /** conf.queue_num and conf.queue */
    method SetQueues(n: nat)
      requires r.obj + RSS_SIZE <= r.mem.Length
      modifies r.mem
      ensures SameBut(old(r.mem[..]), r.mem[..], r.obj + 20, r.obj + 40)
      ensures Part(r.mem[..], r.obj + 20, 4) == IntBytes(n, 4, false)
      ensures Part(r.mem[..], r.obj + 32, 8) == IntBytes(if n > 0 then r.base + r.obj + 104 else 0, 8, false)
    {
      hide IntBytes;
      r.Put(r.obj + 20, IntBytes(n, 4, false));
      ghost var m1 := r.mem[..];
      r.Put(r.obj + 32, IntBytes(if n > 0 then r.base + r.obj + 104 else 0, 8, false));
      PartStays(m1, r.mem[..], r.obj + 32, 8, r.obj + 20, 4);
    }

    /** The n-th queue index, through an argument made for it. */
    method StoreQueue(n: nat, num: Num) returns (ok: bool)
      requires n < ACTION_RSS_QUEUE_NUM && NumOk(num) && r.obj + RSS_SIZE <= r.mem.Length && r.objmask == None
      requires |r.args| < CTX_STACK_SIZE
      modifies r`args, r.mem
      ensures r.args == old(r.args)
      ensures ok <==> num.unsigned.Some?
      ensures ok ==> Part(r.mem[..], r.obj + 104 + 2 * n, 2) == IntBytes(num.unsigned.value, 2, false)
      ensures !ok ==> r.mem[..] == old(r.mem[..])
      ensures SameBut(old(r.mem[..]), r.mem[..], r.obj + 104 + 2 * n, r.obj + 104 + 2 * n + 2)
    {
      hide IntBytes, Part;
      var a := Arg(false, false, false, 0, 0, 104 + 2 * n, 2, None);
      var pushed := r.PushArgs(a);
      ok := r.ParseInt(num);
      assert Tail(old(r.args) + [a], 1) == [a];
      if !ok {
        var popped := r.PopArgs();
      }
    }

    // ----- the other commands -----

    lemma EntriesPlace(v: View, i: nat, t: Token)
      requires StateOk(v) && v.next != [] && TokenFits(Top(v), i, t) && t.name != ""
      requires t.call in {Destroy, List, Flush, Query, Isolate}
      ensures |v.next| == |v.owed| == 1 && v.size >= HEADER && (Top(v) == Command <==> v.out.command == 0)
      ensures Top(v) == Command ==>
        && v.out == Blank && v.blocks == []
        && i == match t.call
                case Destroy => DESTROY
                case List => LIST
                case Flush => FLUSH
                case Query => QUERY
                case _ => ISOLATE
      ensures Top(v) != Command ==>
        && i != END && v.blocks == []
        && ((t.call == Destroy && Top(v) == Rules && v.out.rule == HEADER)
            || (t.call == List && Top(v) == Groups && v.out.group == HEADER))
    {
      hide ArenaOk, AllWithin, HeaderRooms, EntryRooms, NoEndItem, NoEndAct, ItemsEnded, ActsEnded;
    }

    /** What a command sets: destroy and list also start their list of entries. */
    method SetCommand(i: nat)
      requires out == Blank && i != VALIDATE && i != CREATE
      modifies this`objdata, this`out, r`obj, r`objmask
      ensures V() == old(V()).(objdata := 0, obj := 0, objmask := None, out := CommandOut(i, r.mem.Length))
    {
      out := out.(command := i);
      objdata := 0;
      r.obj := 0;
      r.objmask := None;
      if i == DESTROY {
        out := out.(rule := AlignCeil(HEADER));
      } else if i == LIST {
        out := out.(group := AlignCeil(HEADER));
      }
    }

    /** parse_flush(), parse_query(), parse_isolate(), and the first half of parse_destroy() and
        parse_list(): the command token itself. */
    method StartCommand(i: nat, t: Token)
      requires Candidate(i, t) && t.call in {Destroy, List, Flush, Query, Isolate}
      requires Top(V()) == Command && |next| == |owed| == 1 && out == Blank && blocks == []
      modifies this`objdata, this`out, r`obj, r`objmask
      ensures Called(old(V()), old(r.args), r.mem[..], frozen, i, t, t.name)
      ensures V() == CommandView(old(V()), i, t)
    {
      hide StateOk, Push, Synced, Pending, FrozenOk, TokenFits, CommandOut, WritesOnly, Grows, WellFormed, RssEnvOk;
      assert r.args == r.args[..|r.args| - 0];
      NotVc(i, t);
      CommandStep(V(), i, t);
      NoEntries(i);
      Unwritten(out, CommandOut(i, r.mem.Length));
      SetCommand(i);
    }

    lemma NoEntries(i: nat)
      ensures CommandOut(i, r.mem.Length).items == [] && CommandOut(i, r.mem.Length).acts == []
    {}

    lemma NotVc(i: nat, t: Token)
      requires TokenFits(Command, i, t) && t.call in {Destroy, List, Flush, Query, Isolate}
      ensures i != VALIDATE && i != CREATE
    {}

    /** parse_destroy(), parse_list(), parse_flush(), parse_query(), parse_isolate() */
    method ParseCommand(i: nat, t: Token, text: string) returns (ok: bool)
      requires t.name == text ==> Candidate(i, t) && t.call in {Destroy, List, Flush, Query, Isolate} && text != ""
      modifies this`objdata, this`out, r`obj, r`objmask
      ensures t.name != text ==> !ok
      ensures t.name == text ==>
        (ok <==> old(out).command == 0
                 || (t.call == Destroy && HEADER + 4 * old(out).ruleN + 4 <= r.mem.Length)
                 || (t.call == List && HEADER + 4 * old(out).groupN + 4 <= r.mem.Length))
      ensures !ok ==> V() == old(V())
      ensures ok ==> Called(old(V()), old(r.args), r.mem[..], frozen, i, t, text)
      ensures ok ==> V() == CommandView(old(V()), i, t)
    {
      hide StateOk, Push, Synced, Pending, FrozenOk, TokenFits, Called, WellFormed, RssEnvOk;
      if t.name != text {
        return false;
      }
      EntriesPlace(V(), i, t);
      if out.command == 0 {
        StartCommand(i, t);
        return true;
      }
      if t.call == Destroy {
        if out.rule + 4 * out.ruleN + 4 > r.mem.Length {
          return false;
        }
        NextRule(i, t);
      } else {
        if out.group + 4 * out.groupN + 4 > r.mem.Length {
          return false;
        }
        NextGroup(i, t);
      }
      return true;
    }

    method NextRule(i: nat, t: Token)
      requires Candidate(i, t) && Top(V()) == Rules && i != END && |next| == |owed| == 1 && blocks == []
      requires out.rule == HEADER && HEADER + 4 * out.ruleN + 4 <= r.mem.Length && t.call == Destroy
      modifies this`objdata, this`out, r`obj, r`objmask
      ensures Called(old(V()), old(r.args), r.mem[..], frozen, i, t, t.name)
      ensures V() == old(V()).(obj := HEADER + 4 * old(out).ruleN, objmask := None, objdata := 0,
                               out := old(out).(ruleN := old(out).ruleN + 1))
    {
      hide StateOk, Push, Synced, Pending, FrozenOk, TokenFits, WritesOnly, Grows, WellFormed, RssEnvOk;
      EntryOfList(V(), i, t);
      assert r.args == r.args[..|r.args| - 0];
      Unwritten(out, out.(ruleN := out.ruleN + 1));
      objdata := 0;
      r.obj := out.rule + 4 * out.ruleN;
      out := out.(ruleN := out.ruleN + 1);
      r.objmask := None;
    }

    method NextGroup(i: nat, t: Token)
      requires Candidate(i, t) && Top(V()) == Groups && i != END && |next| == |owed| == 1 && blocks == []
      requires out.group == HEADER && HEADER + 4 * out.groupN + 4 <= r.mem.Length && t.call == List
      modifies this`objdata, this`out, r`obj, r`objmask
      ensures Called(old(V()), old(r.args), r.mem[..], frozen, i, t, t.name)
      ensures V() == old(V()).(obj := HEADER + 4 * old(out).groupN, objmask := None, objdata := 0,
                               out := old(out).(groupN := old(out).groupN + 1))
    {
      hide StateOk, Push, Synced, Pending, FrozenOk, TokenFits, WritesOnly, Grows, WellFormed, RssEnvOk;
      EntryOfList(V(), i, t);
      assert r.args == r.args[..|r.args| - 0];
      Unwritten(out, out.(groupN := out.groupN + 1));
      objdata := 0;
      r.obj := out.group + 4 * out.groupN;
      out := out.(groupN := out.groupN + 1);
      r.objmask := None;
    }

    // ----- values -----

    /** The arguments of the list on top have room, and only bytes that may be written. */
    lemma ValuePlace(v: View, args: seq<Arg>, i: nat, t: Token, m: seq<bv8>)
      requires StateOk(v) && Synced(v.next, args, v.owed) && v.next != [] && TokenFits(Top(v), i, t) && Pops(t.call) > 0
      requires |m| == v.size
      ensures Top(v).Value? && t.next == [] && t.args == [] && |v.next| == |v.owed| && |args| <= 3
      ensures Pops(t.call) <= |args| && Tail(args, Pops(t.call)) == v.owed[|v.next| - 1]
              && Strings(Tail(args, Pops(t.call)))
      ensures forall j :: 0 <= j < |args| && |args| - Pops(t.call) <= j ==> Room(args[j], v.obj, v.objmask, v.size)
      ensures forall m': seq<bv8> :: FieldsOnly(m, m', Tail(args, Pops(t.call)), v.obj, v.objmask) ==>
                                       WritesOnly(m, m', v.out, v.blocks)
      ensures StateOk(Push(v, t))
      ensures v.blocks != [] ==> IsVc(v.out) && ArenaOk(v.out, v.blocks, v.size)
    {
      hide StateOk, Push, ArenaOk, InField, MayWrite, MaskOk, Strings;
      PopsIsArity(Top(v), i, t);
      ArityIsValue(Top(v));
      ValueTokenPlain(Top(v), i, t);
      DepthBound(v, args);
      TopArgs(v.next, args, v.owed);
      ValueStep(v, t);
      if v.blocks != [] {
        HasArena(v);
      }
      var top := Tail(args, Pops(t.call));
      forall j | 0 <= j < |args| && |args| - Pops(t.call) <= j
        ensures Room(args[j], v.obj, v.objmask, v.size)
      {
        assert args[j] == top[j - (|args| - Pops(t.call))];
        ValueRoom(v, args[j], 0);
      }
      ValueRoom(v, top[0], 0);
      forall m': seq<bv8> | FieldsOnly(m, m', top, v.obj, v.objmask)
        ensures WritesOnly(m, m', v.out, v.blocks)
      {
        forall p | 0 <= p < |m| && m[p] != m'[p]
          ensures MayWrite(v.out, v.blocks, p)
        {
          var j :| 0 <= j < |top| && InField(top[j], v.obj, v.objmask, p);
          ValueRoom(v, top[j], p);
        }
      }
    }

    lemma FirstOfThree(args: seq<Arg>, c: Call)
      requires Pops(c) <= |args| && Strings(Tail(args, Pops(c)))
      ensures c == String ==> args[|args| - 3].size <= 8
    {
      if c == String {
        assert Tail(args, 3)[0] == args[|args| - 3];
      }
    }

    lemma ArityIsValue(k: Kind)
      ensures Arity(k) > 0 ==> k.Value?
    {}

    lemma ValueTokenPlain(k: Kind, i: nat, t: Token)
      requires TokenFits(k, i, t) && k.Value?
      ensures t.next == [] && t.args == []
    {}

    function ActionTokens(): seq<Token> {
      seq(|actionList|, k requires 0 <= k < |actionList| => toks(actionList[k]))
    }

    /** A token that stands for a value */
    method ParseValue(i: nat, t: Token, w: Word) returns (ok: bool)
      requires Candidate(i, t) && Pops(t.call) > 0 && WordOk(w)
      modifies r`args, r.mem
      ensures ok ==> Called(old(V()), old(r.args), old(r.mem[..]), frozen, i, t, w.text)
      ensures !ok ==> Unmatched(old(V()), old(r.args)) && r.mem[..] == old(r.mem[..])
      ensures ok <==> ValueAccepted(t.call, w, Tail(old(r.args), Pops(t.call)), ActionTokens())
      ensures ok ==> r.ValueHeld(t.call, w, Tail(old(r.args), Pops(t.call)), ActionTokens(), old(r.mem[..]), r.mem[..])
    {
      hide StateOk, Push, Pending, FrozenOk, WritesOnly, FieldsOnly, ArenaOk, Synced, Room, TokenFits, Tail,
        Strings, WellFormed, RssEnvOk, ValueAccepted, r.ValueHeld;
      ghost var m0 := r.mem[..];
      ValuePlace(V(), r.args, i, t, m0);
      FirstOfThree(r.args, t.call);
      ok := r.ReadValue(t.call, w, ActionTokens());
      if ok {
        KeepFrozen(m0, r.mem[..], out, blocks, frozen);
      }
    }

    // ----- one word -----

    /** What a callback has written to the buffer. */
    ghost predicate Wrote(v0: View, args0: seq<Arg>, m0: seq<bv8>, i: nat, t: Token, w: Word)
      reads this`out, this`blocks, r`obj, r`objmask, r.mem
      requires WordOk(w)
    {
      match t.call
      case Init => r.mem.Length >= 56 && r.mem[..] == seq(56, _ => 0) + seq(r.mem.Length - 56, _ => 0x22)
      // a new item or action has a zeroed block, an attribute sets its bit
      case Vc =>
        if |blocks| > |v0.blocks| then NewestZeroed(r.mem[..])
        else
          && r.mem.Length == |m0| && (r.mem.Length > 16 ==>
                && SameBut(m0, r.mem[..], 16, 17)
                && if v0.out.command != 0 then AttrSet(i, m0[16], r.mem[16]) else r.mem[16] == m0[16])
      case VcActionRss => RssDefaults(r.mem[..], out.data)
      case RssFunc =>
        && i >= ACTION_RSS_FUNC_DEFAULT && r.obj + 4 <= r.mem.Length
        && Part(r.mem[..], r.obj, 4) == IntBytes(i - ACTION_RSS_FUNC_DEFAULT, 4, false)
      case RssType => RssEnvOk(rss) && TypesAdded(m0, r.mem[..], r.obj, v0.objdata / 0x1_0000 == 0, TypeBits(w.text))
      case RssQueue =>
        var n := v0.objdata / 0x1_0000;
        && QueuesHeld(m0, r.mem[..], n, if w.text == "end" then n else n + 1)
        && (w.text != "end" ==>
              && n < ACTION_RSS_QUEUE_NUM && w.num.unsigned.Some?
              && Part(r.mem[..], r.obj + 104 + 2 * n, 2) == IntBytes(w.num.unsigned.value, 2, false))
      case _ =>
        if Pops(t.call) > 0 then r.ValueHeld(t.call, w, Tail(args0, Pops(t.call)), ActionTokens(), m0, r.mem[..])
        else r.mem[..] == m0
    }

    /** What the callback of a candidate has done: when it takes the word, and what it leaves behind. */
    ghost predicate Answered(ok: bool, v0: View, args0: seq<Arg>, m0: seq<bv8>, f0: seq<seq<bv8>>, i: nat, t: Token,
                             w: Word)
      reads this, r, r.mem
      requires WordOk(w)
    {
      && (ok <==> Takes(v0, args0, i, t, w, rss, ActionTokens()))
      && (ok ==> Called(v0, args0, m0, f0, i, t, w.text) && V() == After(v0, i, t, w) && Wrote(v0, args0, m0, i, t, w)
                 && Effect(v0, V(), i, t, w))
      && (!ok ==> Unmatched(v0, args0))
      && (ByName(t.call) && t.name != w.text ==> !ok && V() == v0 && r.mem[..] == m0 && frozen == f0)
    }

    /** Tokens that are taken by their name */
    method CallNamed(i: nat, t: Token, w: Word) returns (ok: bool)
      requires WordOk(w) && (t.name != w.text || Candidate(i, t)) && t.call in {Default, Init, VcConf}
      modifies this`next, this`owed, this`objdata, this`out, this`blocks, this`frozen, r`args, r`obj, r`objmask, r.mem
      ensures Answered(ok, old(V()), old(r.args), old(r.mem[..]), old(frozen), i, t, w)
    {
      hide Candidate, Called, TokenFits;
      if t.call == Default {
        ok := ParseDefault(i, t, w.text);
      } else if t.call == Init {
        ok := ParseInit(i, t, w.text);
      } else {
        ok := ParseVcConf(i, t, w.text);
      }
    }

    method CallSpec(i: nat, t: Token, w: Word) returns (ok: bool)
      requires WordOk(w) && (t.name != w.text || Candidate(i, t)) && t.call == VcSpec
      modifies this`next, this`owed, this`objdata, this`out, this`blocks, this`frozen, r`args, r`obj, r`objmask, r.mem
      ensures Answered(ok, old(V()), old(r.args), old(r.mem[..]), old(frozen), i, t, w)
    {
      hide Candidate, Called, TokenFits, ParamView, Chosen;
      ghost var v0, args0, m0, f0 := V(), r.args, r.mem[..], frozen;
      ok := ParseVcSpec(i, t, w.text);
      if ok {
        CalledLists(v0, args0, m0, f0, i, t, w.text);
      }
    }

    lemma CalledLists(v0: View, args0: seq<Arg>, m0: seq<bv8>, f0: seq<seq<bv8>>, i: nat, t: Token, text: string)
      requires Called(v0, args0, m0, f0, i, t, text)
      ensures next == CalledNext(v0.next, i, t.call, text) && owed == CalledOwed(v0.owed, i, t.call, text)
    {
      hide StateOk, FrozenOk, WritesOnly, Grows;
    }

    method CallVc(i: nat, t: Token, w: Word) returns (ok: bool)
      requires WordOk(w) && (t.name != w.text || Candidate(i, t)) && t.call in {Vc, VcActionRss}
      modifies this`next, this`owed, this`objdata, this`out, this`blocks, this`frozen, r`args, r`obj, r`objmask, r.mem
      ensures Answered(ok, old(V()), old(r.args), old(r.mem[..]), old(frozen), i, t, w)
    {
      hide Called, StateOk, Synced, Pending, FrozenOk, TokenFits, WellFormed, RssEnvOk, VcFits, VcTakes, VcView,
        RssDefaults, NewestZeroed, SameBut, WordOk, VcEffect, NewAction, AttrSet, Special;
      if t.name == w.text {
        VcPlace(V(), i, t);
        FitsIsTakes(V(), i, t);
        if VcFits(V(), i, t) {
          VcMeans(V(), i, t);
        }
      }
      if t.call == Vc {
        ok := ParseVc(i, t, w.text);
      } else {
        ok := ParseVcActionRss(i, t, w.text);
      }
    }

    method CallRssFunc(i: nat, t: Token, w: Word) returns (ok: bool)
      requires WordOk(w) && (t.name != w.text || Candidate(i, t)) && t.call == RssFunc
      modifies this`next, this`owed, this`objdata, this`out, this`blocks, this`frozen, r`args, r`obj, r`objmask, r.mem
      ensures Answered(ok, old(V()), old(r.args), old(r.mem[..]), old(frozen), i, t, w)
    {
      hide Called, Candidate, TokenFits, Part, IntBytes;
      ok := ParseRssFunc(i, t, w.text);
    }

    method CallRssType(i: nat, t: Token, w: Word) returns (ok: bool)
      requires WordOk(w) && Candidate(i, t) && t.call == RssType
      modifies this`next, this`owed, this`objdata, this`out, this`blocks, this`frozen, r`args, r`obj, r`objmask, r.mem
      ensures Answered(ok, old(V()), old(r.args), old(r.mem[..]), old(frozen), i, t, w)
    {
      hide Called, StateOk, Synced, Pending, FrozenOk, TokenFits, WellFormed, TypesAdded;
      KnownType(w.text);
      ghost var v0, args0, m0, f0 := V(), r.args, r.mem[..], frozen;
      ok := ParseRssType(i, t, w.text);
      if ok {
        CalledLists(v0, args0, m0, f0, i, t, w.text);
      }
    }

    method CallRssQueue(i: nat, t: Token, w: Word) returns (ok: bool)
      requires WordOk(w) && Candidate(i, t) && t.call == RssQueue
      modifies this`next, this`owed, this`objdata, this`out, this`blocks, this`frozen, r`args, r`obj, r`objmask, r.mem
      ensures Answered(ok, old(V()), old(r.args), old(r.mem[..]), old(frozen), i, t, w)
    {
      hide Called, Candidate, TokenFits, QueuesHeld, Part, IntBytes;
      ghost var v0, args0, m0, f0 := V(), r.args, r.mem[..], frozen;
      ok := ParseRssQueue(i, t, w.text, w.num);
      if ok {
        CalledLists(v0, args0, m0, f0, i, t, w.text);
      }
    }

    lemma KnownType(text: string)
      ensures FirstName(TypeNames(rss), text) < |rss.types|
         <==> exists k :: 0 <= k < |rss.types| && rss.types[k].0 == text
    {
      var names := TypeNames(rss);
      var k := FirstName(names, text);
      if k < |names| {
        assert rss.types[k].0 == names[k];
      } else {
        assert names[..k] == names;
        forall j | 0 <= j < |rss.types|
          ensures rss.types[j].0 != text
        {
          assert names[j] in names;
        }
      }
    }

    /** The callback of a candidate. A candidate told apart by name that the word does not name is not
        touched; the others are only called in a valid state. */
    method Callback(i: nat, t: Token, w: Word) returns (ok: bool)
      requires WordOk(w) && ((ByName(t.call) && t.name != w.text) || Candidate(i, t))
      modifies this`next, this`owed, this`objdata, this`out, this`blocks, this`frozen, r`args, r`obj, r`objmask, r.mem
      ensures Answered(ok, old(V()), old(r.args), old(r.mem[..]), old(frozen), i, t, w)
    {
      hide Candidate, Answered, TokenFits, WordOk;
      if t.call in {Default, Init, VcConf} {
        ok := CallNamed(i, t, w);
      } else if t.call == VcSpec {
        ok := CallSpec(i, t, w);
      } else if t.call in {Vc, VcActionRss} {
        ok := CallVc(i, t, w);
      } else if t.call == RssFunc {
        ok := CallRssFunc(i, t, w);
      } else if t.call == RssType {
        ok := CallRssType(i, t, w);
      } else if t.call == RssQueue {
        ok := CallRssQueue(i, t, w);
      } else if t.call in {Destroy, List, Flush, Query, Isolate} {
        ok := CallCommand(i, t, w);
      } else {
        ok := CallValue(i, t, w);
      }
    }

    method CallCommand(i: nat, t: Token, w: Word) returns (ok: bool)
      requires WordOk(w) && (t.name != w.text || Candidate(i, t)) && t.call in {Destroy, List, Flush, Query, Isolate}
      modifies this`next, this`owed, this`objdata, this`out, this`blocks, this`frozen, r`args, r`obj, r`objmask, r.mem
      ensures Answered(ok, old(V()), old(r.args), old(r.mem[..]), old(frozen), i, t, w)
    {
      hide Called, Candidate, TokenFits, CommandView, CommandEffect;
      if t.name == w.text {
        CommandPlace(i, t);
        CommandMeans(V(), i, t);
      }
      ok := ParseCommand(i, t, w.text);
    }

    /** Behind its command only a rule or a group may be repeated. */
    lemma CommandPlace(i: nat, t: Token)
      requires Candidate(i, t) && t.call in {Destroy, List, Flush, Query, Isolate} && t.name != ""
      ensures out.command != 0 ==> t.call == Destroy || t.call == List
      ensures out.command == 0 ==> i != VALIDATE && i != CREATE
    {
      hide StateOk, Synced, Pending, FrozenOk, WellFormed, RssEnvOk, TokenFits;
      EntriesPlace(V(), i, t);
    }

    method CallValue(i: nat, t: Token, w: Word) returns (ok: bool)
      requires WordOk(w) && Candidate(i, t) && Pops(t.call) > 0
      modifies this`next, this`owed, this`objdata, this`out, this`blocks, this`frozen, r`args, r`obj, r`objmask, r.mem
      ensures Answered(ok, old(V()), old(r.args), old(r.mem[..]), old(frozen), i, t, w)
    {
      hide Called, Candidate, TokenFits, ValueAccepted, r.ValueHeld, WordOk;
      ok := ParseValue(i, t, w);
    }

    /** The lists and arguments of the token that was taken go on the stacks. */
    method PushToken(t: Token) returns (ok: bool)
      modifies this`next, r`args
      requires |next| <= CTX_STACK_SIZE && |r.args| <= CTX_STACK_SIZE
      ensures ok <==> |old(next)| + |t.next| <= CTX_STACK_SIZE && |old(r.args)| + |t.args| <= CTX_STACK_SIZE
      ensures ok ==> next == old(next) + t.next && r.args == old(r.args) + t.args
    {
      var j: nat := 0;
      while j < |t.next|
        invariant j <= |t.next| && next == old(next) + t.next[..j] && r.args == old(r.args) && |next| <= CTX_STACK_SIZE
      {
        if |next| == CTX_STACK_SIZE {
          return false;
        }
        next := next + [t.next[j]];
        assert t.next[..j + 1] == t.next[..j] + [t.next[j]];
        j := j + 1;
      }
      assert t.next[..j] == t.next;
      ghost var lists := next;
      j := 0;
      while j < |t.args|
        invariant j <= |t.args| && r.args == old(r.args) + t.args[..j] && next == lists && |r.args| <= CTX_STACK_SIZE
      {
        var pushed := r.PushArgs(t.args[j]);
        if !pushed {
          return false;
        }
        assert t.args[..j + 1] == t.args[..j] + [t.args[j]];
        j := j + 1;
      }
      assert t.args[..j] == t.args;
      ok := true;
    }

    /** Some candidate of a list takes the word. */
    ghost predicate TakenBy(v: View, args: seq<Arg>, list: TokenList, w: Word)
      requires WordOk(w)
    {
      exists k :: 0 <= k < |list.toks| && Takes(v, args, list.toks[k], toks(list.toks[k]), w, rss, ActionTokens())
    }

    lemma AnswerMeans(ok: bool, v0: View, args0: seq<Arg>, m0: seq<bv8>, f0: seq<seq<bv8>>, i: nat, t: Token, w: Word)
      requires WordOk(w) && Answered(ok, v0, args0, m0, f0, i, t, w)
      ensures ok <==> Takes(v0, args0, i, t, w, rss, ActionTokens())
      ensures ok && ByName(t.call) ==> t.name == w.text
      ensures !ok ==> Unmatched(v0, args0)
      ensures !ok && ByName(t.call) && t.name != w.text ==> V() == v0 && r.mem[..] == m0 && frozen == f0
    {
      hide Called, Takes, After, Effect, Wrote;
    }

    /** Tries the tokens of the top list in turn until one takes the word. */
    method TryCandidates(list: TokenList, w: Word) returns (k: nat)
      requires Valid() && next != [] && list == next[|next| - 1] && WordOk(w)
      modifies this`next, this`owed, this`objdata, this`out, this`blocks, this`frozen, this`curr,
               r`args, r`obj, r`objmask, r.mem
      ensures k <= |list.toks|
      ensures k < |list.toks| ==>
        var i := list.toks[k];
        && curr == i && TokenFits(list.kind, i, toks(i)) && (ByName(toks(i).call) ==> toks(i).name == w.text)
        && Answered(true, old(V()), old(r.args), old(r.mem[..]), old(frozen), i, toks(i), w)
      ensures k == |list.toks| ==> Unmatched(old(V()), old(r.args))
      ensures k < |list.toks| <==> TakenBy(old(V()), old(r.args), list, w)
    {
      hide Answered, TokenFits, StateOk, Synced, Pending, FrozenOk, WellFormed, Takes, WordOk;
      Listed(list);
      k := 0;
      ghost var dead := false;
      while k < |list.toks|
        invariant k <= |list.toks| && Unmatched(old(V()), old(r.args))
        invariant forall j :: 0 <= j < k ==>
                    !Takes(old(V()), old(r.args), list.toks[j], toks(list.toks[j]), w, rss, ActionTokens())
        invariant dead ==> forall j :: k <= j < |list.toks| ==>
                             ByName(toks(list.toks[j]).call) && toks(list.toks[j]).name != w.text
        invariant !dead ==> V() == old(V()) && r.mem[..] == old(r.mem[..]) && frozen == old(frozen) && Valid()
      {
        var i := list.toks[k];
        var t := toks(i);
        curr := i;
        ghost var missed := ByName(t.call) && t.name != w.text;
        if missed {
          NotNamed(old(V()), old(r.args), i, t, w, rss, ActionTokens());
        }
        ghost var v, args, m, f := V(), r.args, r.mem[..], frozen;
        var ok := Callback(i, t, w);
        AnswerMeans(ok, v, args, m, f, i, t, w);
        if ok {
          return;
        }
        if !missed {
          dead := true;
        }
        k := k + 1;
      }
    }

    /** The list on top is well-formed. */
    lemma Listed(list: TokenList)
      requires Valid() && next != [] && list == next[|next| - 1]
      ensures forall j :: 0 <= j < |list.toks| ==> TokenFits(list.kind, list.toks[j], toks(list.toks[j]))
      ensures |list.toks| > 1 ==> forall j :: 0 <= j < |list.toks| ==> ByName(toks(list.toks[j]).call)
      ensures forall i, j :: 0 <= i < j < |list.toks| ==> toks(list.toks[i]).name != toks(list.toks[j]).name
    {
      hide TokenFits, StateOk, Synced, FrozenOk, WellFormed;
      assert ListOk(toks, list);
    }

    /** The token that was taken keeps the stacks in step, and its lists are well-formed. */
    lemma Taken(v0: View, args0: seq<Arg>, m0: seq<bv8>, f0: seq<seq<bv8>>, i: nat, t: Token, text: string)
      requires StateOk(v0) && Synced(v0.next, args0, v0.owed) && Pending(toks, v0.next) && v0.next != []
      requires TokenFits(Top(v0), i, t) && t == toks(i) && WellFormed(toks) && (i == END ==> t.name != "")
      requires Called(v0, args0, m0, f0, i, t, text)
      ensures var p := Push(V(), t);
              StateOk(p) && Synced(p.next, r.args + t.args, p.owed) && Pending(toks, p.next)
              && |p.next| <= 3 && |r.args + t.args| <= 3
    {
      hide StateOk, Synced, Split, FrozenOk, WritesOnly, Grows, Called, TokenFits, CalledNext, CalledOwed,
        Pending, WellFormed, Push, RssEnvOk;
      Unfold(v0, args0, m0, f0, i, t, text);
      CalledSync(v0, args0, i, t, text);
      NotEnd(Top(v0), i, t);
      TokenBringsArgs(Top(v0), i, t);
      PushKeepsSync(next[..|next| - 1], r.args, owed[..|owed| - 1], t);
      DepthBound(Push(V(), t), r.args + t.args);
      PendingStays(v0.next, i, t, text);
    }

    lemma NotEnd(k: Kind, i: nat, t: Token)
      requires TokenFits(k, i, t) && (i == END ==> t.name != "")
      ensures i == END ==> !k.Rules? && !k.Groups?
    {}

    lemma PendingStays(next0: seq<TokenList>, i: nat, t: Token, text: string)
      requires WellFormed(toks) && t == toks(i) && Pending(toks, next0) && next0 != []
      ensures var next := CalledNext(next0, i, t.call, text);
              next != [] && Pending(toks, next[..|next| - 1] + t.next)
    {
      hide ListOk;
      var next := CalledNext(next0, i, t.call, text);
      var all := next[..|next| - 1] + t.next;
      forall j | 0 <= j < |all|
        ensures ListOk(toks, all[j])
      {
        if j >= |next| - 1 {
          assert all[j] == t.next[j - (|next| - 1)];
        } else {
          assert all[j] == next[j];
        }
      }
    }

    /** A fresh context: cmd_flow_context_init() */
    method ContextInit()
      modifies this`curr, this`prev, this`next, this`eol, this`last, this`objdata, this`owed, this`blocks, this`frozen,
               r`args, r`obj, r`objmask
      ensures Fresh() && V() == StartView(out, r.mem.Length) && !eol && !last
    {
      curr := ZERO;
      prev := ZERO;
      next := [];
      r.args := [];
      eol := false;
      last := false;
      objdata := 0;
      r.obj := 0;
      r.objmask := None;
      owed, blocks, frozen := [], [], [];
    }

    ghost predicate Fresh()
      reads this, r
    {
      curr == ZERO && next == [] && owed == [] && r.args == [] && blocks == [] && frozen == []
    }

    /** The pending lists a word is read against. */
    function Against(): (lists: seq<TokenList>)
      requires toks(ZERO).next != []
      reads this`next
      ensures lists != []
    {
      if next == [] then [toks(ZERO).next[0]] else next
    }

    function Newest(lists: seq<TokenList>): TokenList
      requires lists != []
    {
      lists[|lists| - 1]
    }

    /** The current token has taken the word: it belongs to the list on top, its arguments have been
        consumed, its own lists and arguments are pending, and the buffer changed only where values
        may be written. */
    ghost predicate Step(next0: seq<TokenList>, args0: seq<Arg>, out0: Buffer, m0: seq<bv8>, f0: seq<seq<bv8>>,
                         text: string)
      reads this, r, r.mem
    {
      var t := toks(curr);
      && next0 != [] && curr in next0[|next0| - 1].toks && curr != ZERO && (ByName(t.call) ==> t.name == text)
      && var called := CalledNext(next0, curr, t.call, text);
      && called != [] && next == called[..|called| - 1] + t.next && ListsAfter(next0, next, curr, t, text)
      && Pops(t.call) <= |args0| && r.args == args0[..|args0| - Pops(t.call)] + t.args
      && f0 <= frozen
      && (t.call != Init ==> WritesOnly(m0, r.mem[..], out, blocks) && Grows(out0, out))
    }

    lemma NextIs(next0: seq<TokenList>, i: nat, t: Token, text: string)
      requires next0 != [] && (t.call == VcSpec && i == ITEM_PARAM_PREFIX ==> |next0| >= 2)
      ensures var called := CalledNext(next0, i, t.call, text);
              called != [] && ListsAfter(next0, called[..|called| - 1] + t.next, i, t, text)
    {}

    /** The entry list, pushed onto empty stacks, is a valid start. */
    lemma StartValid(l: TokenList, v: View, args: seq<Arg>, m: seq<bv8>, f: seq<seq<bv8>>)
      requires WellFormed(toks) && l == toks(ZERO).next[0]
      requires v.next == [l] && v.owed == [[]] && args == [] && v.blocks == [] && f == [] && |m| == v.size
      ensures StateOk(v) && Synced(v.next, args, v.owed) && Pending(toks, v.next) && FrozenOk(m, v.blocks, f)
    {
      FlatOne(v.owed);
    }

    /** cmd_flow_parse(): a word is taken by a token of the top list, or refused; a refused word leaves
        both stacks as they were. */
    method CmdFlowParse(w: Word) returns (n: int)
      requires WordOk(w) && WellFormed(toks) && RssEnvOk(rss) && (Fresh() || (Valid() && next != []))
      modifies this`next, this`owed, this`objdata, this`out, this`blocks, this`frozen, this`curr, this`prev, this`eol,
               this`last, r`args, r`obj, r`objmask, r.mem
      ensures n == -1 || n == |w.text|
      ensures last == w.last && eol == w.eol
      ensures n == -1 ==> next == old(Against()) && r.args == old(r.args)
      ensures n != -1 ==> Valid() && Step(old(Against()), old(r.args), old(out), old(r.mem[..]), old(frozen), w.text)
      // it is taken exactly when some candidate of the list on top takes it, and by that one
      ensures old(Entering(toks, V())).next == old(Against())
      ensures n != -1 <==> TakenBy(old(Entering(toks, V())), old(r.args), Newest(old(Against())), w)
      ensures n != -1 ==> curr != ZERO && TakenAs(old(Entering(toks, V())), old(r.args), old(r.mem[..]), w)
    {
      hide Called, TokenFits, StateOk, Synced, Pending, FrozenOk, WellFormed, WritesOnly, Grows, Step, Against,
        RssEnvOk, ListOk, TakenBy, TakenAs, Answered, Push, Entering;
      EnteringIs();
      eol := w.eol;
      last := w.last;
      var none := StartIfEmpty();
      if none {
        return 0;
      }
      prev := curr;
      ghost var v0, args0, m0, f0 := V(), r.args, r.mem[..], frozen;
      var list := next[|next| - 1];
      TopListOk(list);
      var k := TryCandidates(list, w);
      if k == |list.toks| {
        return -1;
      }
      var ok := AcceptWord(v0, args0, m0, f0, list, k, w);
      if !ok {
        return -1;
      }
      return |w.text|;
    }

    /** Candidate k of the list on top has taken the word. */
    method AcceptWord(ghost v0: View, ghost args0: seq<Arg>, ghost m0: seq<bv8>, ghost f0: seq<seq<bv8>>,
                      ghost list: TokenList, ghost k: nat, w: Word)
      returns (ok: bool)
      requires WordOk(w) && WellFormed(toks) && RssEnvOk(rss) && StateOk(v0) && v0.next != [] && list == Newest(v0.next)
      requires Synced(v0.next, args0, v0.owed) && Pending(toks, v0.next) && ListOk(toks, list)
      requires k < |list.toks| && curr == list.toks[k] && TokenFits(Top(v0), curr, toks(curr))
      requires ByName(toks(curr).call) ==> toks(curr).name == w.text
      requires Answered(true, v0, args0, m0, f0, curr, toks(curr), w)
      modifies this`next, this`owed, r`args
      ensures ok && Valid() && Step(v0.next, args0, v0.out, m0, f0, w.text) && curr != ZERO
      ensures TakenAs(v0, args0, m0, w)
    {
      hide Called, TokenFits, StateOk, Synced, Pending, FrozenOk, WellFormed, Step, RssEnvOk, ListOk, Takes, After,
        Effect, Wrote, Push;
      EndIsNoToken(list, k, w.text);
      ghost var v1 := V();
      ok := TakeToken(v0, args0, m0, f0, w.text);
      PushEffect(v0, v1, curr, toks(curr), w);
      StepArgs(v0.next, args0, v0.out, m0, f0, w.text);
    }

    lemma StepArgs(next0: seq<TokenList>, args0: seq<Arg>, out0: Buffer, m0: seq<bv8>, f0: seq<seq<bv8>>, text: string)
      requires Step(next0, args0, out0, m0, f0, text)
      ensures var n := Pops(toks(curr).call); n <= |args0| && r.args == args0[..|args0| - n] + toks(curr).args
      ensures curr != ZERO
    {
      hide WritesOnly, Grows, ListsAfter;
    }

    /** The current token has taken the word: what it asked for, what became of the view, and what was
        written. */
    ghost predicate TakenAs(v0: View, args0: seq<Arg>, m0: seq<bv8>, w: Word)
      reads this, r, r.mem
      requires WordOk(w)
    {
      var t, a := toks(curr), After(v0, curr, toks(curr), w);
      && v0.next != [] && ListOk(toks, Newest(v0.next)) && curr in Newest(v0.next).toks
      && Pops(t.call) <= |args0| && r.args == args0[..|args0| - Pops(t.call)] + t.args
      && Takes(v0, args0, curr, t, w, rss, ActionTokens())
      && a.next != [] && a.owed != [] && V() == Push(a, t)
      && Effect(v0, V(), curr, t, w) && Wrote(v0, args0, m0, curr, t, w)
    }

    lemma EnteringIs()
      requires WellFormed(toks)
      ensures Entering(toks, V()).next == Against()
    {}

    /** Pushing lists and arguments leaves the rest of the view alone. */
    lemma PushEffect(v0: View, a: View, i: nat, t: Token, w: Word)
      requires a.next != [] && a.owed != [] && Effect(v0, a, i, t, w)
      ensures Effect(v0, Push(a, t), i, t, w)
    {
      hide EffectOn, Split;
      assert Bare(Push(a, t)) == Bare(a);
    }

    lemma TopListOk(list: TokenList)
      requires Valid() && next != [] && list == next[|next| - 1]
      ensures ListOk(toks, list)
    {
      hide StateOk, Synced, FrozenOk, WellFormed, ListOk;
    }

    /** A new line starts from the command list. */
    method StartIfEmpty() returns (none: bool)
      requires WellFormed(toks) && RssEnvOk(rss) && (Fresh() || (Valid() && next != []))
      modifies this`next, this`owed
      ensures !none && toks(ZERO).next != [] && Valid() && next == old(Against()) && next != []
      ensures V() == old(Entering(toks, V()))
      ensures r.args == old(r.args)
    {
      hide TokenFits, StateOk, Synced, Pending, FrozenOk, WellFormed, RssEnvOk;
      EntryExists();
      if |next| == 0 {
        if |toks(curr).next| == 0 {
          return true;
        }
        next := next + [toks(curr).next[0]];
        owed := [[]];
        StartValid(next[0], V(), r.args, r.mem[..], frozen);
      }
      none := false;
    }

    /** The top list makes way for the lists and arguments of the current token. */
    method TakeToken(ghost v0: View, ghost args0: seq<Arg>, ghost m0: seq<bv8>, ghost f0: seq<seq<bv8>>, text: string)
      returns (ok: bool)
      requires StateOk(v0) && Synced(v0.next, args0, v0.owed) && Pending(toks, v0.next) && v0.next != []
      requires WellFormed(toks) && RssEnvOk(rss) && TokenFits(Top(v0), curr, toks(curr))
               && (curr == END ==> toks(curr).name != "")
      requires Called(v0, args0, m0, f0, curr, toks(curr), text)
      requires curr in v0.next[|v0.next| - 1].toks && curr != ZERO
               && (ByName(toks(curr).call) ==> toks(curr).name == text)
      modifies this`next, this`owed, r`args
      ensures ok && Valid() && Step(v0.next, args0, v0.out, m0, f0, text)
      ensures old(next) != [] && old(owed) != [] && V() == old(Push(V(), toks(curr)))
    {
      hide Called, TokenFits, StateOk, Synced, Pending, FrozenOk, WellFormed, WritesOnly, Grows, Split, Push,
        CalledNext, RssEnvOk, Step;
      if toks(curr).call == VcSpec {
        ParamPlace(v0, curr, toks(curr));
      }
      var t := toks(curr);
      Taken(v0, args0, m0, f0, curr, t, text);
      Unfold(v0, args0, m0, f0, curr, t, text);
      ghost var p := Push(V(), t);
      next := next[..|next| - 1];
      owed := owed[..|owed| - 1];
      ok := PushToken(t);
      owed := owed + Split(t.next, t.args);
      assert V() == p;
      StepIs(v0.next, args0, v0.out, m0, f0, text);
    }

    lemma StepIs(next0: seq<TokenList>, args0: seq<Arg>, out0: Buffer, m0: seq<bv8>, f0: seq<seq<bv8>>, text: string)
      requires next0 != [] && curr in next0[|next0| - 1].toks && curr != ZERO
      requires ByName(toks(curr).call) ==> toks(curr).name == text
      requires toks(curr).call == VcSpec ==> |next0| >= 2
      requires var called := CalledNext(next0, curr, toks(curr).call, text);
               called != [] && next == called[..|called| - 1] + toks(curr).next
      requires var n := Pops(toks(curr).call); n <= |args0| && r.args == args0[..|args0| - n] + toks(curr).args
      requires f0 <= frozen && (toks(curr).call != Init ==> WritesOnly(m0, r.mem[..], out, blocks) && Grows(out0, out))
      ensures Step(next0, args0, out0, m0, f0, text)
    {
      hide WritesOnly, Grows, CalledNext, ListsAfter;
      NextIs(next0, curr, toks(curr), text);
    }

    /** END is never matched: its name is empty. */
    lemma EndIsNoToken(list: TokenList, k: nat, text: string)
      requires WellFormed(toks) && ListOk(toks, list) && k < |list.toks| && text != ""
      requires ByName(toks(list.toks[k]).call) ==> toks(list.toks[k]).name == text
      ensures list.toks[k] != ZERO && (list.toks[k] == END ==> toks(END).name != "")
    {}

    lemma EntryExists()
      requires WellFormed(toks)
      ensures toks(ZERO).next != []
    {}

    lemma Unfold(v0: View, args0: seq<Arg>, m0: seq<bv8>, f0: seq<seq<bv8>>, i: nat, t: Token, text: string)
      requires Called(v0, args0, m0, f0, i, t, text)
      ensures next == CalledNext(v0.next, i, t.call, text) && next != [] && |owed| == |next|
      ensures owed == CalledOwed(v0.owed, i, t.call, text) && StateOk(Push(V(), t))
      ensures Pops(t.call) <= |args0| && r.args == args0[..|args0| - Pops(t.call)]
      ensures FrozenOk(r.mem[..], blocks, frozen) && f0 <= frozen
      ensures t.call != Init ==> WritesOnly(m0, r.mem[..], out, blocks) && Grows(v0.out, out)
      ensures Push(V(), t) == V().(next := next[..|next| - 1] + t.next,
                                   owed := owed[..|owed| - 1] + Split(t.next, t.args))
    {
      hide StateOk, WritesOnly, Grows, FrozenOk, Split;
    }

    // ----- a line -----

    /** Some word may not be needed: nothing is pending, or the line is over and the list on top has END. */
    predicate MayEnd()
      reads this`next, this`curr, this`eol, this`last
    {
      (next == [] && curr != ZERO) || (eol && last && next != [] && END in next[|next| - 1].toks)
    }

    /** cmd_flow_tok() */
    method FlowTok(first: bool) returns (more: bool)
      modifies this`curr, this`prev, this`next, this`eol, this`last, this`objdata, this`owed, this`blocks, this`frozen,
               r`args, r`obj, r`objmask
      ensures first ==> more && Fresh() && V() == StartView(out, r.mem.Length) && out == old(out) && !eol && !last
      ensures more == !Ends(V(), curr, eol, last)
      ensures !first ==> eol == old(eol) && last == old(last)
      ensures !first ==> more == !old(MayEnd()) && more == !MayEnd()
      ensures !first ==> V() == old(V()) && r.args == old(r.args) && frozen == old(frozen) && curr == old(curr)
    {
      if first {
        ContextInit();
      }
      if |next| == 0 && curr != ZERO {
        return false;
      }
      if eol && last && |next| > 0 {
        var list := next[|next| - 1];
        var i: nat := 0;
        while i < |list.toks|
          invariant i <= |list.toks| && END !in list.toks[..i]
        {
          if list.toks[i] == END {
            return false;
          }
          assert list.toks[..i + 1] == list.toks[..i] + [list.toks[i]];
          i := i + 1;
        }
        assert list.toks[..i] == list.toks;
      }
      return true;
    }

    /** What an accepted line leaves behind: no argument is left over, and the patterns and actions of
        a rule to validate or create both end with END, have it nowhere else, and lie in a sound
        buffer. */
    ghost predicate Accepted()
      reads this, r, r.mem
    {
      && Valid() && r.args == []
      && (IsVc(out) ==>
            && ArenaOk(out, blocks, r.mem.Length) && ItemsEnded(out.items) && ActsEnded(out.acts)
            && out.pattern != 0 && out.actions != 0)
      && (IsVc(out) || IsSimple(out) || out.command == DESTROY || out.command == LIST)
    }

    lemma EndedState()
      requires Valid() && MayEnd()
      ensures Accepted()
    {
      hide ArenaOk, AllWithin, HeaderRooms, EntryRooms, NoEndItem, NoEndAct, ItemsEnded, ActsEnded, TokenFits,
        WellFormed, FrozenOk, Flat;
      if |next| > 0 {
        TopListOk(next[|next| - 1]);
        assert next[|next| - 1].kind.Rules? || next[|next| - 1].kind.Groups?;
      }
      NoArgsLeft(V(), r.args);
    }

    lemma LineEnds(v: View, args: seq<Arg>, c: nat, eol: bool, last: bool, words: seq<Word>)
      requires forall k :: 0 <= k < |words| ==> WordOk(words[k])
      ensures Ends(v, c, eol, last) ==>
                (LineOk(toks, rss, ActionTokens(), v, args, c, eol, last, words) <==> words == [])
      ensures !Ends(v, c, eol, last) && words == [] ==> !LineOk(toks, rss, ActionTokens(), v, args, c, eol, last, words)
    {
      hide Takes, RestOk, Ends, Entering;
    }

    /** No candidate takes the next word. */
    lemma Refused(v: View, args: seq<Arg>, c: nat, eol: bool, last: bool, words: seq<Word>)
      requires forall k :: 0 <= k < |words| ==> WordOk(words[k])
      requires words != [] && !Ends(v, c, eol, last) && Entering(toks, v).next != []
      requires !TakenBy(Entering(toks, v), args, Newest(Entering(toks, v).next), words[0])
      ensures !LineOk(toks, rss, ActionTokens(), v, args, c, eol, last, words)
    {
      hide Takes, RestOk, Ends, Entering;
    }

    /** The current token is the one that takes the next word. */
    lemma WordTaken(v: View, args: seq<Arg>, m0: seq<bv8>, c: nat, eol: bool, last: bool, words: seq<Word>)
      requires forall k :: 0 <= k < |words| ==> WordOk(words[k])
      requires words != [] && !Ends(v, c, eol, last) && Entering(toks, v).next != []
      requires TakenAs(Entering(toks, v), args, m0, words[0])
      requires this.eol == words[0].eol && this.last == words[0].last
      ensures LineOk(toks, rss, ActionTokens(), v, args, c, eol, last, words)
         <==> LineOk(toks, rss, ActionTokens(), V(), r.args, curr, this.eol, this.last, words[1..])
    {
      hide Takes, Ends, Entering, After, Push, ListOk, Effect, Wrote;
      var v0 := Entering(toks, v);
      var list := Newest(v0.next);
      var j :| 0 <= j < |list.toks| && list.toks[j] == curr;
      forall k | 0 <= k < |list.toks|
                 && Takes(v0, args, list.toks[k], toks(list.toks[k]), words[0], rss, ActionTokens())
        ensures k == j
      {
        OnlyOne(toks, list, v0, args, words[0], rss, ActionTokens(), j, k);
      }
    }

    /** The words of a line are read until the command is complete, as match_inst() of the command
        line library does: the line is accepted when no word is left and none is missing. */
    method MatchLine(words: seq<Word>) returns (accepted: bool)
      requires WellFormed(toks) && RssEnvOk(rss) && forall k :: 0 <= k < |words| ==> WordOk(words[k])
      modifies this`next, this`owed, this`objdata, this`out, this`blocks, this`frozen, this`curr, this`prev, this`eol,
               this`last, r`args, r`obj, r`objmask, r.mem
      ensures accepted ==> Accepted() && words != []
      // exactly the lines that the table spells, with room for all they store
      ensures accepted <==>
        LineOk(toks, rss, ActionTokens(), StartView(old(out), r.mem.Length), [], ZERO, false, false, words)
    {
      hide TokenFits, StateOk, Synced, Pending, FrozenOk, WellFormed, RssEnvOk, WordOk, LineOk, Step, TakenAs, TakenBy,
        ListOk, Ends, Against, Entering;
      assert words[0..] == words;
      var i: nat := 0;
      while true
        invariant i <= |words| && (i > 0 ==> Valid() && curr != ZERO)
        invariant i == 0 ==> out == old(out)
        invariant i > 0 ==>
          (LineOk(toks, rss, ActionTokens(), StartView(old(out), r.mem.Length), [], ZERO, false, false, words)
           <==> LineOk(toks, rss, ActionTokens(), V(), r.args, curr, eol, last, words[i..]))
        decreases |words| - i
      {
        var more := FlowTok(i == 0);
        ghost var v, args, was := V(), r.args, (curr, eol, last);
        LineEnds(v, args, was.0, was.1, was.2, words[i..]);
        if !more {
          EndedState();
          return i == |words|;
        }
        if i == |words| {
          return false;
        }
        ghost var m0 := r.mem[..];
        EnteringIs();
        var n := CmdFlowParse(words[i]);
        assert words[i..][0] == words[i] && words[i..][1..] == words[i + 1..];
        if n < 0 {
          Refused(v, args, was.0, was.1, was.2, words[i..]);
          return false;
        }
        WordTaken(v, args, m0, was.0, was.1, was.2, words[i..]);
        i := i + 1;
      }
    }
  }
}
