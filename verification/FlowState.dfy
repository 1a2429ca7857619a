/** The states the flow command parser can be in between two words: which lists may be pending, and
    what must hold of the output buffer and of the object values are written to.
  */
module FlowState {
  import opened FlowTokens
  import opened Optional
  import opened FlowArena
  import opened FlowInput

  /** Both stacks (the arguments grouped by list), the current object, and the output buffer. */
  datatype View = View(next: seq<TokenList>, owed: seq<seq<Arg>>, obj: nat, objmask: Option<nat>, objdata: nat,
                       out: Buffer, blocks: seq<Block>, size: nat)

  predicate IsVc(out: Buffer) {
    out.command == VALIDATE || out.command == CREATE
  }

  predicate IsSimple(out: Buffer) {
    out.command == FLUSH || out.command == QUERY || out.command == ISOLATE
  }

  ghost predicate Newest(v: View, n: nat) {
    v.blocks != [] && v.blocks[|v.blocks| - 1] == Block(v.out.data, n)
  }

  ghost predicate ItemsOpen(v: View) {
    IsVc(v.out) && ArenaOk(v.out, v.blocks, v.size) && v.out.pattern != 0 && v.out.actions == 0
  }

  ghost predicate ActionsOpen(v: View) {
    && IsVc(v.out) && ArenaOk(v.out, v.blocks, v.size) && v.out.pattern != 0 && v.out.actions != 0
    && ItemsEnded(v.out.items)
  }

  /** What a pending list says about the output when nothing but its own values is above it. */
  ghost predicate BaseOk(k: Kind, v: View) {
    match k
    case Entry => |v.blocks| == 0
    case Command => v.out == Blank && |v.blocks| == 0
    case Attr => IsVc(v.out) && ArenaOk(v.out, v.blocks, v.size) && v.out.pattern == 0
    case Items => ItemsOpen(v) && NoEndItem(v.out.items)
    case ItemField(n) =>
      ItemsOpen(v) && NoEndItem(v.out.items) && v.out.items != [] && Newest(v, 3 * n) && v.objdata == 3 * n
    case ToActions => ItemsOpen(v) && ItemsEnded(v.out.items)
    case Actions => ActionsOpen(v) && NoEndAct(v.out.acts)
    case ActionField(n, rss) =>
      && ActionsOpen(v) && NoEndAct(v.out.acts) && v.out.acts != [] && Newest(v, n)
      && v.objdata / 0x1_0000 <= ACTION_RSS_QUEUE_NUM
      && (rss ==> n == RSS_SIZE && v.obj == v.out.data && v.objmask == None)
    case Rules =>
      && v.out.command == DESTROY && v.out.rule == HEADER && HEADER + 4 * v.out.ruleN <= v.size
      && v.out.items == [] && v.out.acts == [] && v.blocks == []
    case Groups =>
      && v.out.command == LIST && v.out.group == HEADER && HEADER + 4 * v.out.groupN <= v.size
      && v.out.items == [] && v.out.acts == [] && v.blocks == []
    case _ => false
  }

  /** A value relative to the header, or to the attributes in it, goes to a field meant for it. */
  ghost predicate HeaderRoom(v: View, a: Arg) {
    && MaskOk(a)
    && ((4 <= v.obj + a.offset && v.obj + a.offset + a.size <= 6)
        || (8 <= v.obj + a.offset && v.obj + a.offset + a.size <= 20
            && v.out.command != DESTROY && v.out.command != LIST))
  }

  ghost predicate EntryRoom(v: View, a: Arg, start: nat, n: nat) {
    HeaderRoom(v, a) || (n > 0 && v.obj == start + 4 * (n - 1) && Within(a, 0, 4))
  }

  ghost predicate HeaderRooms(v: View, args: seq<Arg>) {
    forall j :: 0 <= j < |args| ==> HeaderRoom(v, args[j])
  }

  ghost predicate EntryRooms(v: View, args: seq<Arg>, start: nat, n: nat) {
    forall j :: 0 <= j < |args| ==> EntryRoom(v, args[j], start, n)
  }

  /** The object of an item's value is one of the thirds of its block. */
  ghost predicate OnThird(v: View, n: nat) {
    && (v.obj == v.out.data || v.obj == v.out.data + n || v.obj == v.out.data + 2 * n)
    && (v.objmask.Some? ==> v.obj == v.out.data && v.objmask.value == v.out.data + 2 * n)
  }

  ghost predicate Strings(args: seq<Arg>) {
    |args| <= 3 && (|args| == 3 ==> args[0].size <= 8)
  }

  /** Nothing is pending any more: the command is complete. */
  ghost predicate Complete(v: View) {
    || (IsVc(v.out) && ActionsOpenEnded(v))
    || (IsSimple(v.out) && v.blocks == [])
  }

  ghost predicate ActionsOpenEnded(v: View) {
    ActionsOpen(v) && ActsEnded(v.out.acts)
  }

  ghost predicate StateOne(v: View)
    requires |v.next| == |v.owed| == 1
  {
    if v.next[0].kind.Value? then OnlyValues(v) else BaseOk(v.next[0].kind, v)
  }

  ghost predicate StateTwo(v: View)
    requires |v.next| == |v.owed| == 2
  {
    var k, l, args := v.next[0].kind, v.next[1].kind, v.owed[1];
    match k
    case Attr => l == Value(1) && BaseOk(k, v) && HeaderRooms(v, args) && v.objmask == None
    case Rules => l == Value(1) && BaseOk(k, v) && EntryRooms(v, args, HEADER, v.out.ruleN) && v.objmask == None
    case Groups => l == Value(1) && BaseOk(k, v) && EntryRooms(v, args, HEADER, v.out.groupN) && v.objmask == None
    case ItemField(n) => l.Value? && BaseOk(k, v) && AllWithin(args, 0, n) && Strings(args) && OnThird(v, n)
    case ActionField(n, rss) =>
      && BaseOk(k, v)
      && ((l.Rss? && rss)
          || (l.Value? && AllWithin(args, 0, n) && Strings(args) && v.obj == v.out.data && v.objmask == None))
    case Value(_) => OnlyValues(v)
    case _ => false
  }

  ghost predicate StateThree(v: View)
    requires |v.next| == |v.owed| == 3
  {
    var k, l, p := v.next[0].kind, v.next[1].kind, v.next[2].kind;
    match k
    case ItemField(n) =>
      && l.Value? && p.Param? && (p.prefix ==> l.arity == 1)
      && BaseOk(k, v) && AllWithin(v.owed[1], 0, n) && Strings(v.owed[1])
    case Value(_) => OnlyValues(v)
    case _ => false
  }

  /** Values of a command that takes nothing else. */
  ghost predicate OnlyValues(v: View) {
    && |v.owed| == |v.next| && IsSimple(v.out) && v.objmask == None && v.blocks == []
    && forall j :: 0 <= j < |v.next| ==> v.next[j].kind == Value(1) && HeaderRooms(v, v.owed[j])
  }

  /** The states between two words. No more than three lists are ever pending. */
  ghost predicate StateOk(v: View) {
    && |v.owed| == |v.next| <= 3 && (v.size >= HEADER || (|v.next| == 1 && v.next[0].kind == Entry))
    && (forall j :: 0 <= j < |v.next| ==> |v.owed[j]| == Arity(v.next[j].kind))
    && (if |v.next| == 0 then Complete(v)
        else if |v.next| == 1 then StateOne(v)
        else if |v.next| == 2 then StateTwo(v)
        else StateThree(v))
  }

  /** A token is taken: the top list makes way for the lists of the token. */
  function Push(v: View, t: Token): View
    requires v.next != [] && v.owed != []
  {
    v.(next := v.next[..|v.next| - 1] + t.next, owed := v.owed[..|v.owed| - 1] + Split(t.next, t.args))
  }

  function Top(v: View): Kind
    requires v.next != []
  {
    v.next[|v.next| - 1].kind
  }

  // ----- each kind of token leads to a state of this kind -----

  /** The arguments of a token, list by list. */
  function Shares(t: Token): seq<seq<Arg>>
    requires |t.args| == Total(t.next)
  {
    if |t.next| == 0 then []
    else if |t.next| == 1 then [t.args]
    else
      var n := Arity(t.next[0].kind);
      if |t.next| == 2 then [t.args[..n], t.args[n..]]
      else
        var m := n + Arity(t.next[1].kind);
        [t.args[..n], t.args[n..m], t.args[m..]]
  }

  lemma SharesAreSplit(t: Token)
    requires |t.next| <= 3 && |t.args| == Total(t.next)
    ensures Split(t.next, t.args) == Shares(t)
  {
    hide Split, Synced;
    if |t.next| == 0 {
      SplitNone();
      assert t.next == [] && t.args == [];
    } else if |t.next| == 1 {
      SplitOne(t.next[0], t.args);
      assert t.next == [t.next[0]];
    } else if |t.next| == 2 {
      SplitTwo(t.next[0], t.next[1], t.args);
      assert t.next == [t.next[0], t.next[1]];
    } else {
      SplitThree(t.next[0], t.next[1], t.next[2], t.args);
      assert t.next == [t.next[0], t.next[1], t.next[2]];
    }
  }

  /** With a single list pending, only the lists of the token remain. */
  lemma PushOnly(v: View, t: Token)
    requires |v.next| == |v.owed| == 1 && |t.next| <= 3 && |t.args| == Total(t.next) && v.size >= HEADER
    ensures Push(v, t) == v.(next := t.next, owed := Shares(t))
    ensures |t.next| == 0 ==> (StateOk(Push(v, t)) <==> Complete(Push(v, t)))
    ensures |t.next| == 1 ==> (StateOk(Push(v, t)) <==> StateOne(Push(v, t)))
    ensures |t.next| == 2 ==> (StateOk(Push(v, t)) <==> StateTwo(Push(v, t)))
    ensures |t.next| == 3 ==> (StateOk(Push(v, t)) <==> StateThree(Push(v, t)))
  {
    hide StateOne, StateTwo, StateThree, Complete, Split;
    SharesAreSplit(t);
    assert v.next[..0] + t.next == t.next;
    assert v.owed[..0] + Split(t.next, t.args) == Split(t.next, t.args);
  }

  function Total(next: seq<TokenList>): nat {
    if |next| == 0 then 0
    else if |next| == 1 then Arity(next[0].kind)
    else if |next| == 2 then Arity(next[0].kind) + Arity(next[1].kind)
    else Arity(next[0].kind) + Arity(next[1].kind) + Arity(next[2].kind)
  }

  lemma Alone(v: View)
    requires StateOk(v) && |v.next| == 1
    ensures |v.owed| == 1 && StateOne(v) && (v.next[0].kind != Entry ==> v.size >= HEADER)
  {}

  /** flow */
  lemma EntryStep(v: View, t: Token)
    requires StateOk(v) && |v.next| == 1 && v.next[0].kind == Entry && TokenFits(Entry, FLOW, t) && v.size >= HEADER
    ensures StateOk(Push(v.(obj := 0, objmask := None, objdata := 0, out := Blank, blocks := []), t))
  {
    var v' := v.(obj := 0, objmask := None, objdata := 0, out := Blank, blocks := []);
    PushOnly(v', t);
  }

  /** validate, create, destroy, list, flush, query, isolate: what the callback sets on its way. */
  function CommandOut(i: nat, size: nat): Buffer {
    if i == VALIDATE || i == CREATE then Blank.(command := i, data := size)
    else if i == DESTROY then Blank.(command := i, rule := HEADER)
    else if i == LIST then Blank.(command := i, group := HEADER)
    else Blank.(command := i)
  }

  lemma CommandStep(v: View, i: nat, t: Token)
    requires StateOk(v) && |v.next| == 1 && v.next[0].kind == Command && TokenFits(Command, i, t)
    ensures StateOk(Push(v.(obj := 0, objmask := None, objdata := 0, out := CommandOut(i, v.size)), t))
  {
    hide Split, Push, StateOk;
    Alone(v);
    var v' := v.(obj := 0, objmask := None, objdata := 0, out := CommandOut(i, v.size));
    PushOnly(v', t);
    assert v'.blocks == [];
    CommandArena(v'.out, v.size);
    var p := Push(v', t);
    forall j | 0 <= j < |t.args|
      ensures HeaderRoom(p, t.args[j])
    {}
  }

  lemma CommandArena(out: Buffer, size: nat)
    requires size >= HEADER && out.pattern == 0 && out.actions == 0 && out.items == [] && out.acts == []
    ensures out.data == size ==> ArenaOk(out, [], size)
  {
    var none: seq<Block> := [];
    assert none[..0] == [] && none[0..] == [];
  }

  /** group, priority, ingress, egress, transfer, pattern */
  lemma AttrStep(v: View, i: nat, t: Token)
    requires StateOk(v) && |v.next| == 1 && v.next[0].kind == Attr && TokenFits(Attr, i, t)
    ensures i != PATTERN ==> StateOk(Push(v.(obj := 8, objmask := None, objdata := 0), t))
    ensures i == PATTERN ==>
      StateOk(Push(v.(obj := HEADER, objmask := None, objdata := 0, out := v.out.(pattern := HEADER)), t))
  {
    hide Split, Push, StateOk;
    Alone(v);
    PushOnly(v, t);
    if i == PATTERN {
      hide Stacked;
      var v' := v.(obj := HEADER, objmask := None, objdata := 0, out := v.out.(pattern := HEADER));
      PushOnly(v', t);
    } else {
      var v' := v.(obj := 8, objmask := None, objdata := 0);
      PushOnly(v', t);
      var p := Push(v', t);
      forall j | 0 <= j < |t.args|
        ensures HeaderRoom(p, t.args[j])
      {}
    }
  }

  lemma ItemAdded(items: seq<Item>, item: Item)
    requires NoEndItem(items)
    ensures if item.kind == TYPE_END then ItemsEnded(items + [item]) else NoEndItem(items + [item])
  {
    assert (items + [item])[..|items|] == items;
  }

  lemma ActAdded(acts: seq<Act>, act: Act)
    requires NoEndAct(acts)
    ensures if act.kind == TYPE_END then ActsEnded(acts + [act]) else NoEndAct(acts + [act])
  {
    assert (acts + [act])[..|acts|] == acts;
  }

  /** The view once an item with 3 * size bytes has been opened. */
  function ItemView(v: View, kind: nat, size: nat): View
    requires BlockAt(v.out, 3 * size) >= 0
  {
    v.(obj := v.out.pattern + ITEM * |v.out.items|, objmask := None, objdata := 3 * size,
       out := WithItem(v.out, kind, 3 * size), blocks := v.blocks + [Block(BlockAt(v.out, 3 * size), 3 * size)])
  }

  function ActView(v: View, kind: nat, size: nat): View
    requires BlockAt(v.out, size) >= 0
  {
    v.(obj := v.out.actions + ACT * |v.out.acts|, objmask := None, objdata := size,
       out := WithAct(v.out, kind, size), blocks := v.blocks + [Block(BlockAt(v.out, size), size)])
  }

  /** A pattern item */
  lemma ItemStep(v: View, i: nat, t: Token)
    requires StateOk(v) && |v.next| == 1 && v.next[0].kind == Items && TokenFits(Items, i, t)
    requires Front(v.out) + ITEM <= BlockAt(v.out, 3 * t.priv.value.size)
    ensures StateOk(Push(ItemView(v, t.priv.value.kind, t.priv.value.size), t))
  {
    hide Split, Push, StateOk, StateTwo, StateThree, Complete, OnlyValues, HeaderRooms, EntryRooms, AllWithin;
    Alone(v);
    var size, kind := t.priv.value.size, t.priv.value.kind;
    OpenItemKeepsArena(v.out, v.blocks, v.size, kind, 3 * size);
    hide ArenaOk, NoEndItem, ItemsEnded;
    ItemAdded(v.out.items, Item(kind, None, None, None));
    var v' := ItemView(v, kind, size);
    PushOnly(v', t);
  }

  /** actions */
  lemma ToActionsStep(v: View, i: nat, t: Token)
    requires StateOk(v) && |v.next| == 1 && v.next[0].kind == ToActions && TokenFits(ToActions, i, t)
    ensures var at := AlignCeil(v.out.pattern + ITEM * |v.out.items|);
            && at == HEADER + ITEM * |v.out.items|
            && StateOk(Push(v.(obj := at, objmask := None, objdata := 0, out := v.out.(actions := at)), t))
  {
    hide Split, Push, StateOk;
    Alone(v);
    var at := AlignCeil(v.out.pattern + ITEM * |v.out.items|);
    var v' := v.(obj := at, objmask := None, objdata := 0, out := v.out.(actions := at));
    PushOnly(v', t);
  }

  /** An action; an RSS action also makes its configuration the current object. */
  lemma ActionStep(v: View, i: nat, t: Token)
    requires StateOk(v) && |v.next| == 1 && v.next[0].kind == Actions && TokenFits(Actions, i, t)
    requires Front(v.out) + ACT <= BlockAt(v.out, t.priv.value.size)
    ensures t.call == Vc ==> StateOk(Push(ActView(v, t.priv.value.kind, t.priv.value.size), t))
    ensures t.call == VcActionRss ==>
      var a := ActView(v, t.priv.value.kind, t.priv.value.size);
      StateOk(Push(a.(obj := a.out.data), t))
  {
    hide Split, Push, StateOk, StateTwo, StateThree, OnlyValues, HeaderRooms, EntryRooms, AllWithin;
    Alone(v);
    var size, kind := t.priv.value.size, t.priv.value.kind;
    OpenActKeepsArena(v.out, v.blocks, v.size, kind, size);
    hide ArenaOk, NoEndAct, ActsEnded, ItemsEnded;
    var a := ActView(v, kind, size);
    ActAdded(v.out.acts, a.out.acts[|v.out.acts|]);
    PushOnly(a, t);
    PushOnly(a.(obj := a.out.data), t);
  }

  /** A field of an item, or the step to the next item */
  lemma ItemFieldStep(v: View, i: nat, t: Token)
    requires StateOk(v) && |v.next| == 1 && v.next[0].kind.ItemField? && TokenFits(v.next[0].kind, i, t)
    ensures StateOk(Push(v, t))
  {
    hide Split, ArenaOk, NoEndItem, Push, StateOk;
    Alone(v);
    PushOnly(v, t);
    if |t.next| == 3 {
      assert t.args[0..|t.args|] == t.args;
    }
  }

  /** The offset of the third a parameter refers to. */
  function Third(i: nat): nat {
    if i == ITEM_PARAM_LAST then 1 else if i == ITEM_PARAM_MASK || i == ITEM_PARAM_PREFIX then 2 else 0
  }

  function ParamItem(item: Item, i: nat, at: nat, mask: nat): Item {
    var item1 := if i == ITEM_PARAM_IS then item.(mask := Some(mask)) else item;
    match Third(i)
    case 0 => item1.(spec := Some(at))
    case 1 => item1.(last := Some(at))
    case _ => item1.(mask := Some(at))
  }

  /** The view once a parameter has chosen the object. */
  function ParamView(v: View, i: nat): View
    requires v.out.items != []
  {
    var n, last := v.objdata / 3, |v.out.items| - 1;
    var at, mask := v.out.data + n * Third(i), v.out.data + n * 2;
    v.(obj := at, objmask := if i == ITEM_PARAM_IS then Some(mask) else None,
       out := v.out.(items := v.out.items[last := ParamItem(v.out.items[last], i, at, mask)]))
  }

  /** is, spec, last, mask, prefix */
  lemma ParamStep(v: View, i: nat, t: Token)
    requires StateOk(v) && v.next != [] && Top(v).Param? && TokenFits(Top(v), i, t)
    ensures |v.next| == 3 && v.out.items != [] && v.out.pattern != 0
    ensures StateOk(Push(ParamView(v, i), t))
    ensures i == ITEM_PARAM_PREFIX ==>
      StateOk(Push(ParamView(v.(next := v.next[|v.next| - 2 := PrefixList]), i), t))
  {
    hide Split, ArenaOk, NoEndItem, Stacked;
    ParamPoints(v, i);
    SplitNone();
    var v' := ParamView(v, i);
    assert Push(v', t).next == v.next[..2] && Push(v', t).owed == v.owed[..2];
    ParamKinds(v, i);
    if i == ITEM_PARAM_PREFIX {
      PrefixTakesOver(v, v', t);
    }
  }

  /** A prefix takes the place of the value it stands for: both need one argument. */
  lemma PrefixTakesOver(v: View, v': View, t: Token)
    requires |v'.next| == |v'.owed| == 3 && v'.next == v.next && t.next == [] && t.args == [] && StateOk(Push(v', t))
    requires v'.next[0].kind.ItemField? && v'.next[1].kind == Value(1)
    ensures StateOk(Push(v'.(next := v.next[1 := PrefixList]), t))
  {
    hide Split, ArenaOk, NoEndItem, Stacked;
    SplitNone();
    var w := v'.(next := v.next[1 := PrefixList]);
    assert Push(v', t).next == v.next[..2] && Push(v', t).owed == v'.owed[..2];
    assert Push(w, t).next == v.next[1 := PrefixList][..2] && Push(w, t).owed == v'.owed[..2];
  }

  lemma ParamKinds(v: View, i: nat)
    requires v.out.items != [] && NoEndItem(v.out.items)
    ensures NoEndItem(ParamView(v, i).out.items)
  {}

  /** The pointers set by a parameter go to the thirds of the item's own block. */
  lemma ParamPoints(v: View, i: nat)
    requires ItemsOpen(v) && v.out.items != [] && Newest(v, v.objdata) && v.objdata % 3 == 0
    ensures ArenaOk(ParamView(v, i).out, v.blocks, v.size)
  {
    hide Stacked;
    var out, last := v.out, |v.out.items| - 1;
    assert v.blocks[..|out.items|] == v.blocks && ItemPoints(out.items[last], v.blocks[last]);
    var items := ParamView(v, i).out.items;
    forall j | 0 <= j < |items|
      ensures ItemPoints(items[j], v.blocks[j])
    {
      if j < last {
        assert items[j] == out.items[j];
      }
    }
  }

  /** A field of an action, or the step to the next action */
  lemma ActionFieldStep(v: View, i: nat, t: Token)
    requires StateOk(v) && |v.next| == 1 && v.next[0].kind.ActionField? && TokenFits(v.next[0].kind, i, t)
    ensures t.call == Default ==> StateOk(Push(v, t))
    ensures t.call == VcConf ==> StateOk(Push(v.(obj := v.out.data, objmask := None), t))
  {
    hide Split, ArenaOk, NoEndAct, ItemsEnded, Push, StateOk;
    Alone(v);
    if t.call == Default {
      PushOnly(v, t);
    } else {
      PushOnly(v.(obj := v.out.data, objmask := None), t);
    }
    if |t.next| == 2 {
      assert t.args[0..] == t.args;
    }
  }

  /** A sub-list of the RSS action: it is left, or kept for another entry. */
  lemma RssStep(v: View, t: Token, objdata: nat)
    requires StateOk(v) && v.next != [] && Top(v).Rss? && t.next == [] && t.args == []
    requires objdata / 0x1_0000 <= ACTION_RSS_QUEUE_NUM
    ensures |v.next| == |v.owed| == 2 && v.owed[1] == []
    ensures StateOk(Push(v.(objdata := objdata), t)) && StateOk(v.(objdata := objdata))
  {
    hide Split, ArenaOk, NoEndAct, ItemsEnded;
    SplitNone();
    var v' := v.(objdata := objdata);
    assert Push(v', t).next == v.next[..1] && Push(v', t).owed == v.owed[..1];
  }

  /** rule, group */
  lemma EntryOfList(v: View, i: nat, t: Token)
    requires StateOk(v) && |v.next| == 1 && v.next[0].kind in {Rules, Groups} && TokenFits(v.next[0].kind, i, t)
             && i != END
    ensures v.next[0].kind == Rules && HEADER + 4 * v.out.ruleN + 4 <= v.size ==>
      StateOk(Push(v.(obj := HEADER + 4 * v.out.ruleN, objmask := None, objdata := 0,
                      out := v.out.(ruleN := v.out.ruleN + 1)), t))
    ensures v.next[0].kind == Groups && HEADER + 4 * v.out.groupN + 4 <= v.size ==>
      StateOk(Push(v.(obj := HEADER + 4 * v.out.groupN, objmask := None, objdata := 0,
                      out := v.out.(groupN := v.out.groupN + 1)), t))
  {
    hide Split, ArenaOk, Push, StateOk;
    Alone(v);
    if v.next[0].kind == Rules {
      PushOnly(v.(obj := HEADER + 4 * v.out.ruleN, objmask := None, objdata := 0,
                  out := v.out.(ruleN := v.out.ruleN + 1)), t);
    } else {
      PushOnly(v.(obj := HEADER + 4 * v.out.groupN, objmask := None, objdata := 0,
                  out := v.out.(groupN := v.out.groupN + 1)), t);
    }
  }

  /** A value has been read. */
  lemma ValueStep(v: View, t: Token)
    requires StateOk(v) && v.next != [] && Top(v).Value? && t.next == [] && t.args == []
    ensures StateOk(Push(v, t))
  {
    hide Split, ArenaOk, NoEndAct, ItemsEnded, NoEndItem;
    SplitNone();
    var n := |v.next| - 1;
    assert Push(v, t).next == v.next[..n] && Push(v, t).owed == v.owed[..n];
  }

  // ----- what the states promise -----

  /** Neither stack ever holds more than three entries. */
  lemma DepthBound(v: View, args: seq<Arg>)
    requires StateOk(v) && Synced(v.next, args, v.owed)
    ensures |v.next| <= 3 && |args| <= 3
  {
    hide ArenaOk, AllWithin, HeaderRooms, EntryRooms, ActionsOpen, ItemsOpen;
    if |v.next| == 0 {
    } else if |v.next| == 1 {
      FlatOne(v.owed);
    } else if |v.next| == 2 {
      FlatTwo(v.owed);
    } else {
      FlatThree(v.owed);
    }
  }

  lemma FlatOne(owed: seq<seq<Arg>>)
    requires |owed| == 1
    ensures Flat(owed) == owed[0]
  {
    assert owed[..0] == [];
  }

  lemma FlatTwo(owed: seq<seq<Arg>>)
    requires |owed| == 2
    ensures Flat(owed) == owed[0] + owed[1]
  {
    FlatOne(owed[..1]);
  }

  lemma FlatThree(owed: seq<seq<Arg>>)
    requires |owed| == 3
    ensures Flat(owed) == owed[0] + owed[1] + owed[2]
  {
    FlatTwo(owed[..2]);
  }

  /** Nothing is left on the argument stack when no list is pending, nor when the command may end. */
  lemma NoArgsLeft(v: View, args: seq<Arg>)
    requires StateOk(v) && Synced(v.next, args, v.owed)
    requires v.next == [] || (|v.next| == 1 && !v.next[0].kind.Value?)
    ensures args == []
  {
    if |v.next| == 1 {
      FlatOne(v.owed);
    }
  }

  lemma HasArena(v: View)
    requires StateOk(v) && v.blocks != []
    ensures IsVc(v.out) && ArenaOk(v.out, v.blocks, v.size)
  {
    hide ArenaOk, AllWithin, HeaderRooms, EntryRooms, NoEndItem, NoEndAct, ItemsEnded, ActsEnded;
  }

  /** Where a value goes: inside the buffer, only to bytes that may be written, and its mask apart
      from it. */
  lemma ValueRoom(v: View, a: Arg, p: int)
    requires StateOk(v) && v.next != [] && Top(v).Value? && a in v.owed[|v.next| - 1]
    ensures Room(a, v.obj, v.objmask, v.size)
    ensures InField(a, v.obj, v.objmask, p) ==> MayWrite(v.out, v.blocks, p)
    ensures Strings(v.owed[|v.next| - 1])
  {
    hide NoEndItem, NoEndAct, ItemsEnded, ActsEnded, Stacked, ItemsPoint, ActsPoint, MaskOk;
    var k := v.next[0].kind;
    if v.blocks != [] {
      HasArena(v);
      assert v.blocks[|v.blocks| - 1].at + v.blocks[|v.blocks| - 1].size <= v.size by {
        LastInside(v.out, v.blocks, v.size);
      }
    }
  }

  lemma LastInside(out: Buffer, blocks: seq<Block>, size: nat)
    requires ArenaOk(out, blocks, size) && blocks != []
    ensures blocks[|blocks| - 1].at + blocks[|blocks| - 1].size <= size && blocks[|blocks| - 1].at == out.data
  {
    assert EndOf(blocks[|blocks| - 1]) <= size;
  }
}
