/** A representative part of the token table of the flow command: every command and attribute, items
    with plain fields, bit-fields and strings, and actions with and without configuration.
  */
module FlowTable {
  import opened BitFill
  import opened FlowTokens
  import opened Optional

  function Plain1(offset: nat, size: nat): Arg {
    Arg(false, false, false, 0, 0, offset, size, None)
  }

  function Network(offset: nat, size: nat): Arg {
    Arg(true, false, false, 0, 0, offset, size, None)
  }

  function Bits(offset: nat, mask: seq<bv8>, hton: bool): Arg {
    Arg(hton, false, false, 0, 0, offset, |mask|, Some(mask))
  }

  function Bounded(offset: nat, size: nat, max: word64): Arg {
    Arg(false, false, true, 0, max, offset, size, None)
  }

  const EntryList := TokenList(Entry, [FLOW])
  const CommandList := TokenList(Command, [VALIDATE, CREATE, DESTROY, FLUSH, LIST, QUERY, ISOLATE])
  const NextVcAttr := TokenList(Attr, [GROUP, PRIORITY, INGRESS, EGRESS, TRANSFER, PATTERN])
  const RuleList := TokenList(Rules, [22])
  const NextDestroyAttr := TokenList(Rules, [22, END])
  const NextListAttr := TokenList(Groups, [24, END])
  const ItemParam := TokenList(Param(true), [ITEM_PARAM_IS, ITEM_PARAM_SPEC, ITEM_PARAM_LAST, ITEM_PARAM_MASK,
      ITEM_PARAM_PREFIX])
  const RawParam := TokenList(Param(false), [ITEM_PARAM_IS, ITEM_PARAM_SPEC, ITEM_PARAM_MASK])
  const NextItem := TokenList(Items, [37, 38, 51, 57, 61, 67])
  const NoFields := TokenList(ItemField(0), [36])
  const RawFields := TokenList(ItemField(64), [54, 55, 56, 36])
  const EthFields := TokenList(ItemField(14), [58, 59, 60, 36])
  const VlanFields := TokenList(ItemField(4), [62, 63, 64, 65, 66, 36])
  const Ipv4Fields := TokenList(ItemField(20), [68, 69, 70, 71, 72, 36])
  const ActionsList := TokenList(ToActions, [ACTIONS])
  const NextAction := TokenList(Actions, [140, 141, 148, 150, 151, 154])
  const NoConf := TokenList(ActionField(0, false), [139])
  const QueueFields := TokenList(ActionField(2, false), [149, 139])
  const CountFields := TokenList(ActionField(8, false), [153, 152, 139])
  const RssFields := TokenList(ActionField(RSS_SIZE, true), [155, 156, 160, 162, 163, 164, 139])
  const RssFuncs := TokenList(Rss, [ACTION_RSS_FUNC_DEFAULT, ACTION_RSS_FUNC_TOEPLITZ, ACTION_RSS_FUNC_SIMPLE_XOR])
  const RssTypes := TokenList(Rss, [ACTION_RSS_TYPE])
  const RssQueues := TokenList(Rss, [ACTION_RSS_QUEUE])

  function ValueOf(i: nat): TokenList { TokenList(Value(1), [i]) }

  const StringValue := TokenList(Value(3), [6])

  /** INTEGER .. PRIORITY_LEVEL */
  function ValueToken(i: nat): Token {
    var c := if i == 4 then Prefix else if i == 5 then Boolean else if i == 6 then String else if i == 7 then Mac
             else if i == 8 then Ipv4 else if i == 9 then Ipv6 else if i == 11 then Port else Int;
    Token("{value}", [], [], c, None)
  }

  /** FLOW .. PATTERN */
  function CommandToken(i: nat): Token {
    if i == FLOW then Token("flow", [CommandList], [], Init, None)
    else if i == VALIDATE then Token("validate", [NextVcAttr, ValueOf(11)], [Plain1(4, 2)], Vc, None)
    else if i == CREATE then Token("create", [NextVcAttr, ValueOf(11)], [Plain1(4, 2)], Vc, None)
    else if i == DESTROY then Token("destroy", [RuleList, ValueOf(11)], [Plain1(4, 2)], Destroy, None)
    else if i == FLUSH then Token("flush", [ValueOf(11)], [Plain1(4, 2)], Flush, None)
    else if i == QUERY then
      Token("query", [ValueOf(23), ValueOf(10), ValueOf(11)], [Plain1(16, 4), Plain1(8, 4), Plain1(4, 2)], Query, None)
    else if i == LIST then Token("list", [NextListAttr, ValueOf(11)], [Plain1(4, 2)], List, None)
    else if i == ISOLATE then Token("isolate", [ValueOf(5), ValueOf(11)], [Plain1(8, 4), Plain1(4, 2)], Isolate, None)
    else if i == 22 then Token("rule", [NextDestroyAttr, ValueOf(10)], [Plain1(0, 4)], Destroy, None)
    else if i == 23 then Token("{action}", [], [], Action, None)
    else if i == 24 then Token("group", [NextListAttr, ValueOf(12)], [Plain1(0, 4)], List, None)
    else if i == GROUP then Token("group", [NextVcAttr, ValueOf(12)], [Plain1(0, 4)], Vc, None)
    else if i == PRIORITY then Token("priority", [NextVcAttr, ValueOf(13)], [Plain1(4, 4)], Vc, None)
    else if i == INGRESS then Token("ingress", [NextVcAttr], [], Vc, None)
    else if i == EGRESS then Token("egress", [NextVcAttr], [], Vc, None)
    else if i == TRANSFER then Token("transfer", [NextVcAttr], [], Vc, None)
    else Token("pattern", [NextItem], [], Vc, None)
  }

  /** ITEM_PARAM_IS .. */
  function ItemToken(i: nat): Token {
    if i == ITEM_PARAM_IS then Token("is", [], [], VcSpec, None)
    else if i == ITEM_PARAM_SPEC then Token("spec", [], [], VcSpec, None)
    else if i == ITEM_PARAM_LAST then Token("last", [], [], VcSpec, None)
    else if i == ITEM_PARAM_MASK then Token("mask", [], [], VcSpec, None)
    else if i == ITEM_PARAM_PREFIX then Token("prefix", [], [], VcSpec, None)
    else if i == 36 then Token("/", [NextItem], [], Default, None)
    else if i == 37 then Token("end", [ActionsList], [], Vc, Some(Priv(TYPE_END, 0)))
    else if i == 38 then Token("void", [NoFields], [], Vc, Some(Priv(1, 0)))
    else if i == 51 then Token("raw", [RawFields], [], Vc, Some(Priv(8, 64)))
    else if i == 54 then Token("offset", [RawFields, ValueOf(2), ItemParam], [Plain1(4, 4)], Default, None)
    else if i == 55 then Token("limit", [RawFields, ValueOf(3), ItemParam], [Plain1(8, 2)], Default, None)
    else if i == 56 then
      Token("pattern", [RawFields, StringValue, RawParam], [Plain1(16, 8), Plain1(10, 2), Plain1(24, 40)],
            Default, None)
    else if i == 57 then Token("eth", [EthFields], [], Vc, Some(Priv(9, 14)))
    else if i == 58 then Token("dst", [EthFields, ValueOf(7), ItemParam], [Network(0, 6)], Default, None)
    else if i == 59 then Token("src", [EthFields, ValueOf(7), ItemParam], [Network(6, 6)], Default, None)
    else if i == 60 then Token("type", [EthFields, ValueOf(3), ItemParam], [Network(12, 2)], Default, None)
    else VlanToken(i)
  }

  function VlanToken(i: nat): Token {
    if i == 61 then Token("vlan", [VlanFields], [], Vc, Some(Priv(10, 4)))
    else if i == 62 then Token("tci", [VlanFields, ValueOf(3), ItemParam], [Network(0, 2)], Default, None)
    else if i == 63 then Token("pcp", [VlanFields, ValueOf(3), ItemParam], [Bits(0, [0xe0, 0x00], true)], Default, None)
    else if i == 64 then Token("dei", [VlanFields, ValueOf(3), ItemParam], [Bits(0, [0x10, 0x00], true)], Default, None)
    else if i == 65 then Token("vid", [VlanFields, ValueOf(3), ItemParam], [Bits(0, [0x0f, 0xff], true)], Default, None)
    else if i == 66 then Token("inner_type", [VlanFields, ValueOf(3), ItemParam], [Network(2, 2)], Default, None)
    else if i == 67 then Token("ipv4", [Ipv4Fields], [], Vc, Some(Priv(11, 20)))
    else if i == 68 then Token("tos", [Ipv4Fields, ValueOf(3), ItemParam], [Network(1, 1)], Default, None)
    else if i == 69 then Token("ttl", [Ipv4Fields, ValueOf(3), ItemParam], [Network(8, 1)], Default, None)
    else if i == 70 then Token("proto", [Ipv4Fields, ValueOf(3), ItemParam], [Network(9, 1)], Default, None)
    else if i == 71 then Token("src", [Ipv4Fields, ValueOf(8), ItemParam], [Network(12, 4)], Default, None)
    else if i == 72 then Token("dst", [Ipv4Fields, ValueOf(8), ItemParam], [Network(16, 4)], Default, None)
    else Token("?", [], [], Default, None)
  }

  /** ACTIONS .. */
  function ActionToken(i: nat): Token {
    if i == ACTIONS then Token("actions", [NextAction], [], Vc, None)
    else if i == 139 then Token("/", [NextAction], [], Default, None)
    else if i == 140 then Token("end", [], [], Vc, Some(Priv(TYPE_END, 0)))
    else if i == 141 then Token("void", [NoConf], [], Vc, Some(Priv(1, 0)))
    else if i == 148 then Token("queue", [QueueFields], [], Vc, Some(Priv(6, 2)))
    else if i == 149 then Token("index", [QueueFields, ValueOf(3)], [Plain1(0, 2)], VcConf, None)
    else if i == 150 then Token("drop", [NoConf], [], Vc, Some(Priv(7, 0)))
    else if i == 151 then Token("count", [CountFields], [], Vc, Some(Priv(8, 8)))
    else if i == 152 then
      Token("shared", [CountFields, ValueOf(5)], [Bits(0, [0x01, 0, 0, 0, 0, 0, 0, 0], false)], VcConf, None)
    else if i == 153 then Token("identifier", [CountFields, ValueOf(3)], [Plain1(4, 4)], VcConf, None)
    else RssToken(i)
  }

  function RssToken(i: nat): Token {
    if i == 154 then Token("rss", [RssFields], [], VcActionRss, Some(Priv(9, RSS_SIZE)))
    else if i == 155 then Token("func", [RssFields, RssFuncs], [], Default, None)
    else if i == 156 then Token("level", [RssFields, ValueOf(3)], [Plain1(4, 4)], Default, None)
    else if i == 157 then Token("default", [], [], RssFunc, None)
    else if i == 158 then Token("toeplitz", [], [], RssFunc, None)
    else if i == 159 then Token("simple_xor", [], [], RssFunc, None)
    else if i == 160 then Token("types", [RssFields, RssTypes], [], Default, None)
    else if i == 161 then Token("{type}", [], [], RssType, None)
    else if i == 162 then
      Token("key", [RssFields, StringValue], [Plain1(0, 0), Plain1(16, 4), Plain1(40, 64)], Default, None)
    else if i == 163 then Token("key_len", [RssFields, ValueOf(3)], [Bounded(16, 4, 64)], Default, None)
    else if i == 164 then Token("queues", [RssFields, RssQueues], [], VcConf, None)
    else if i == 165 then Token("{queue}", [], [], RssQueue, None)
    else Token("?", [], [], Default, None)
  }

  /** token_list[] */
  function FlowToken(i: nat): Token {
    if i == ZERO then Token("ZERO", [EntryList], [], Default, None)
    else if i == END then Token("", [], [], Default, None)
    else if i < FLOW then ValueToken(i)
    else if i <= PATTERN then CommandToken(i)
    else if i < ACTIONS then ItemToken(i)
    else ActionToken(i)
  }

  // ----- bit-masks name at most eight bits a byte -----

  lemma {:induction false} FewInByte(i: nat, m: bv8, s: nat)
    requires s <= 8
    ensures |BytePositions(i, m, s)| <= 8 - s
    decreases 8 - s
  {
    if s < 8 {
      FewInByte(i, m, s + 1);
    }
  }

  lemma {:induction false} FewFrom(mask: seq<bv8>, hton: bool, k: nat)
    requires k <= |mask|
    ensures |PositionsFrom(mask, hton, k)| <= 8 * (|mask| - k)
    decreases |mask| - k
  {
    if k < |mask| {
      FewInByte(Visit(|mask|, hton, k), mask[Visit(|mask|, hton, k)], 0);
      FewFrom(mask, hton, k + 1);
    }
  }

  lemma FewPositions(mask: seq<bv8>, hton: bool)
    requires |mask| <= 8
    ensures |Positions(mask, hton)| <= 64
  {
    FewFrom(mask, hton, 0);
  }

  // ----- the table is well-formed -----

  /** The j-th token of a list fits, and can be told from the others. */
  ghost predicate Fits(l: TokenList, j: nat)
    requires j < |l.toks|
  {
    var i := l.toks[j];
    && TokenFits(l.kind, i, FlowToken(i)) && i != ZERO
    && (|l.toks| > 1 ==> ByName(FlowToken(i).call))
    && (i == END ==> l.kind.Rules? || l.kind.Groups?)
  }

  ghost predicate Differ(l: TokenList, i: nat, j: nat)
    requires i < |l.toks| && j < |l.toks|
  {
    FlowToken(l.toks[i]).name != FlowToken(l.toks[j]).name
  }

  lemma Combine(l: TokenList)
    requires forall j :: 0 <= j < |l.toks| ==> Fits(l, j)
    requires forall i, j :: 0 <= i < j < |l.toks| ==> Differ(l, i, j)
    ensures ListOk(FlowToken, l)
  {
    hide TokenFits, FlowToken, ByName;
    forall i, j | 0 <= i < j < |l.toks|
      ensures FlowToken(l.toks[i]).name != FlowToken(l.toks[j]).name
    {
      assert Differ(l, i, j);
    }
    forall j | 0 <= j < |l.toks|
      ensures TokenFits(l.kind, l.toks[j], FlowToken(l.toks[j])) && l.toks[j] != ZERO
      ensures |l.toks| > 1 ==> ByName(FlowToken(l.toks[j]).call)
      ensures l.toks[j] == END ==> l.kind.Rules? || l.kind.Groups?
    {
      assert Fits(l, j);
    }
  }

  lemma EntryOk(l: TokenList)
    requires l in {EntryList, ActionsList, NoFields, NoConf}
    ensures ListOk(FlowToken, l)
  {
    hide Positions;
  }

  lemma CommandsOk(l: TokenList)
    requires l == CommandList
    ensures ListOk(FlowToken, l)
  {
    hide Fits, Differ, ListOk;
    forall j | 0 <= j < |l.toks|
      ensures Fits(l, j)
    {
      CommandsFit(j);
    }
    forall i, j | 0 <= i < j < |l.toks|
      ensures Differ(l, i, j)
    {
      CommandsDiffer(i, j);
    }
    Combine(l);
  }

  lemma CommandsFit(j: nat)
    requires j < |CommandList.toks|
    ensures Fits(CommandList, j)
  {
    hide Positions;
  }

  lemma CommandsDiffer(i: nat, j: nat)
    requires i < j < |CommandList.toks|
    ensures Differ(CommandList, i, j)
  {
    hide Positions, TokenFits;
  }

  lemma AttributesOk(l: TokenList)
    requires l == NextVcAttr
    ensures ListOk(FlowToken, l)
  {
    hide Positions, ListOk;
    forall j | 0 <= j < |l.toks|
      ensures Fits(l, j)
    {}
    forall i, j | 0 <= i < j < |l.toks|
      ensures Differ(l, i, j)
    {
      hide TokenFits;
    }
    Combine(l);
  }

  lemma EntriesOk(l: TokenList)
    requires l in {RuleList, NextDestroyAttr, NextListAttr}
    ensures ListOk(FlowToken, l)
  {
    hide Positions, ListOk;
    forall j | 0 <= j < |l.toks|
      ensures Fits(l, j)
    {}
    forall i, j | 0 <= i < j < |l.toks|
      ensures Differ(l, i, j)
    {
      hide TokenFits;
    }
    Combine(l);
  }

  lemma ParametersOk(l: TokenList)
    requires l in {ItemParam, RawParam}
    ensures ListOk(FlowToken, l)
  {
    hide Positions, ListOk;
    forall j | 0 <= j < |l.toks|
      ensures Fits(l, j)
    {}
    forall i, j | 0 <= i < j < |l.toks|
      ensures Differ(l, i, j)
    {
      hide TokenFits;
    }
    Combine(l);
  }

  lemma ItemsOk(l: TokenList)
    requires l == NextItem
    ensures ListOk(FlowToken, l)
  {
    hide Positions, ListOk;
    forall j | 0 <= j < |l.toks|
      ensures Fits(l, j)
    {}
    forall i, j | 0 <= i < j < |l.toks|
      ensures Differ(l, i, j)
    {
      hide TokenFits;
    }
    Combine(l);
  }

  lemma RawFieldsOk(l: TokenList)
    requires l == RawFields
    ensures ListOk(FlowToken, l)
  {
    hide Positions, ListOk;
    forall j | 0 <= j < |l.toks|
      ensures Fits(l, j)
    {}
    forall i, j | 0 <= i < j < |l.toks|
      ensures Differ(l, i, j)
    {
      hide TokenFits;
    }
    Combine(l);
  }

  lemma EthFieldsOk(l: TokenList)
    requires l == EthFields
    ensures ListOk(FlowToken, l)
  {
    hide Positions, ListOk;
    forall j | 0 <= j < |l.toks|
      ensures Fits(l, j)
    {}
    forall i, j | 0 <= i < j < |l.toks|
      ensures Differ(l, i, j)
    {
      hide TokenFits;
    }
    Combine(l);
  }

  lemma Ipv4FieldsOk(l: TokenList)
    requires l == Ipv4Fields
    ensures ListOk(FlowToken, l)
  {
    hide Fits, Differ, ListOk;
    forall j | 0 <= j < |l.toks|
      ensures Fits(l, j)
    {
      Ipv4FieldsFit(j);
    }
    forall i, j | 0 <= i < j < |l.toks|
      ensures Differ(l, i, j)
    {
      Ipv4FieldsDiffer(i, j);
    }
    Combine(l);
  }

  lemma Ipv4FieldsFit(j: nat)
    requires j < |Ipv4Fields.toks|
    ensures Fits(Ipv4Fields, j)
  {
    hide Positions;
  }

  lemma Ipv4FieldsDiffer(i: nat, j: nat)
    requires i < j < |Ipv4Fields.toks|
    ensures Differ(Ipv4Fields, i, j)
  {
    hide Positions, TokenFits;
  }

  lemma VlanFieldsOk(l: TokenList)
    requires l == VlanFields
    ensures ListOk(FlowToken, l)
  {
    hide Fits, Differ, ListOk;
    forall j | 0 <= j < |l.toks|
      ensures Fits(l, j)
    {
      VlanFieldsFit(j);
    }
    forall i, j | 0 <= i < j < |l.toks|
      ensures Differ(l, i, j)
    {
      VlanFieldsDiffer(i, j);
    }
    Combine(l);
  }

  lemma VlanFieldsFit(j: nat)
    requires j < |VlanFields.toks|
    ensures Fits(VlanFields, j)
  {
    hide Fits;
    if 1 <= j <= 3 {
      VlanBitsFit(j);
    } else {
      VlanPlainFit(j);
    }
  }

  lemma VlanBitsFit(j: nat)
    requires 1 <= j <= 3
    ensures Fits(VlanFields, j)
  {
    FewPositions([0xe0, 0x00], true);
    FewPositions([0x10, 0x00], true);
    FewPositions([0x0f, 0xff], true);
    hide Positions;
  }

  lemma VlanPlainFit(j: nat)
    requires j in {0, 4, 5}
    ensures Fits(VlanFields, j)
  {
    hide Positions;
  }

  lemma VlanFieldsDiffer(i: nat, j: nat)
    requires i < j < |VlanFields.toks|
    ensures Differ(VlanFields, i, j)
  {
    hide Positions, TokenFits;
  }

  lemma ActionsOk(l: TokenList)
    requires l == NextAction
    ensures ListOk(FlowToken, l)
  {
    hide Positions, ListOk;
    forall j | 0 <= j < |l.toks|
      ensures Fits(l, j)
    {}
    forall i, j | 0 <= i < j < |l.toks|
      ensures Differ(l, i, j)
    {
      hide TokenFits;
    }
    Combine(l);
  }

  lemma QueueFieldsOk(l: TokenList)
    requires l in {QueueFields, CountFields}
    ensures ListOk(FlowToken, l)
  {
    hide Positions, ListOk;
    FewPositions([0x01, 0, 0, 0, 0, 0, 0, 0], false);
    forall j | 0 <= j < |l.toks|
      ensures Fits(l, j)
    {}
    forall i, j | 0 <= i < j < |l.toks|
      ensures Differ(l, i, j)
    {
      hide TokenFits;
    }
    Combine(l);
  }

  lemma RssFieldsOk(l: TokenList)
    requires l == RssFields
    ensures ListOk(FlowToken, l)
  {
    hide Fits, Differ, ListOk;
    forall j | 0 <= j < |l.toks|
      ensures Fits(l, j)
    {
      RssFieldsFit(j);
    }
    forall i, j | 0 <= i < j < |l.toks|
      ensures Differ(l, i, j)
    {
      RssFieldsDiffer(i, j);
    }
    Combine(l);
  }

  lemma RssFieldsFit(j: nat)
    requires j < |RssFields.toks|
    ensures Fits(RssFields, j)
  {
    hide Positions;
  }

  lemma RssFieldsDiffer(i: nat, j: nat)
    requires i < j < |RssFields.toks|
    ensures Differ(RssFields, i, j)
  {
    hide Positions, TokenFits;
  }

  lemma RssListsOk(l: TokenList)
    requires l in {RssFuncs, RssTypes, RssQueues}
    ensures ListOk(FlowToken, l)
  {
    hide Positions, ListOk;
    forall j | 0 <= j < |l.toks|
      ensures Fits(l, j)
    {}
    forall i, j | 0 <= i < j < |l.toks|
      ensures Differ(l, i, j)
    {
      hide TokenFits;
    }
    Combine(l);
  }

  lemma ValuesOk(i: nat)
    requires (2 <= i < FLOW && i != 6) || i == 23
    ensures ListOk(FlowToken, ValueOf(i))
  {
    hide Positions;
  }

  lemma StringsOk()
    ensures ListOk(FlowToken, StringValue)
  {
    hide Positions;
  }

  /** Every list of every token is sound. */
  lemma CommandLists(i: nat, j: nat)
    requires FLOW <= i <= PATTERN && j < |CommandToken(i).next|
    ensures ListOk(FlowToken, CommandToken(i).next[j])
  {
    hide ListOk, FlowToken, ItemToken, ActionToken;
    CommandsOk(CommandList);
    AttributesOk(NextVcAttr);
    EntriesOk(RuleList);
    EntriesOk(NextDestroyAttr);
    EntriesOk(NextListAttr);
    ItemsOk(NextItem);
    ValuesOk(5);
    ValuesOk(10);
    ValuesOk(11);
    ValuesOk(12);
    ValuesOk(13);
    ValuesOk(23);
  }

  lemma ItemLists(i: nat, j: nat)
    requires j < |ItemToken(i).next|
    ensures ListOk(FlowToken, ItemToken(i).next[j])
  {
    hide ListOk, FlowToken, CommandToken, ActionToken;
    ItemsOk(NextItem);
    EntryOk(ActionsList);
    EntryOk(NoFields);
    ParametersOk(ItemParam);
    ParametersOk(RawParam);
    RawFieldsOk(RawFields);
    EthFieldsOk(EthFields);
    VlanFieldsOk(VlanFields);
    Ipv4FieldsOk(Ipv4Fields);
    ValuesOk(2);
    ValuesOk(3);
    ValuesOk(7);
    ValuesOk(8);
    StringsOk();
  }

  lemma ActionLists(i: nat, j: nat)
    requires j < |ActionToken(i).next|
    ensures ListOk(FlowToken, ActionToken(i).next[j])
  {
    hide ListOk, FlowToken, CommandToken, ItemToken;
    ActionsOk(NextAction);
    EntryOk(NoConf);
    QueueFieldsOk(QueueFields);
    QueueFieldsOk(CountFields);
    RssFieldsOk(RssFields);
    RssListsOk(RssFuncs);
    RssListsOk(RssTypes);
    RssListsOk(RssQueues);
    ValuesOk(3);
    ValuesOk(5);
    StringsOk();
  }

  /** The table meets the requirements of the parser. */
  lemma TableIsWellFormed()
    ensures WellFormed(FlowToken)
  {
    hide ListOk, CommandToken, ItemToken, ActionToken, ValueToken;
    EntryOk(EntryList);
    ValuesOk(PREFIX);
    forall i: nat, j | 0 <= j < |FlowToken(i).next|
      ensures ListOk(FlowToken, FlowToken(i).next[j])
    {
      if i == ZERO || i == END {
      } else if i < FLOW {
        NoLists(i);
      } else if i <= PATTERN {
        CommandLists(i, j);
      } else if i < ACTIONS {
        ItemLists(i, j);
      } else {
        ActionLists(i, j);
      }
    }
  }

  lemma NoLists(i: nat)
    ensures ValueToken(i).next == []
  {}
}
