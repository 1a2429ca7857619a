/** A line of the flow command, read with the table: which buffers it fits. */
module FlowLine {
  import opened FlowTokens
  import opened FlowValues
  import opened FlowArena
  import opened FlowInput
  import opened FlowState
  import opened FlowParser
  import opened FlowTable
  import opened Optional

  /** A word that is no number and no address, with more to come on the line. */
  function Plain(text: string): Word {
    Word(text, Num(None, None), Num(None, None), None, None, None, false, true)
  }

  /** flow validate {port} ingress pattern eth / end actions drop / end */
  function ValidateLine(port: Word): seq<Word> {
    [Plain("flow"), Plain("validate"), port, Plain("ingress"), Plain("pattern"), Plain("eth"), Plain("/"), Plain("end"),
      Plain("actions"), Plain("drop"), Plain("/"), Plain("end").(last := true)]
  }

  /** The tokens its words stand for, and the place of each in the list it is looked for in. */
  const Tokens: seq<nat> := [FLOW, VALIDATE, 11, INGRESS, PATTERN, 57, 36, 37, ACTIONS, 150, 139, 140]
  const Places: seq<nat> := [0, 0, 0, 2, 5, 3, 3, 0, 0, 3, 0, 0]

  const PortArg := Plain1(4, 2)

  /** Where the fields of the eth item go: three times 14 bytes below the end of the buffer. */
  function EthBlock(size: nat): nat {
    if size < 42 then 0 else AlignFloor(size - 42)
  }

  lemma Aligned(size: nat)
    ensures EthBlock(size) % 8 == 0
  {}

  /** The buffer once the first n words are read: pattern items of 32 bytes from byte 56 on, and then
      actions of 16 bytes. */
  function Filled(n: nat, size: nat): Buffer {
    var d := EthBlock(size);
    var eth, end := Item(9, None, None, None), Item(0, None, None, None);
    if n < 2 then Blank
    else if n < 5 then Buffer(VALIDATE, 0, 0, [], [], size, 0, 0, 0, 0)
    else if n == 5 then Buffer(VALIDATE, 56, 0, [], [], size, 0, 0, 0, 0)
    else if n < 8 then Buffer(VALIDATE, 56, 0, [eth], [], d, 0, 0, 0, 0)
    else if n == 8 then Buffer(VALIDATE, 56, 0, [eth, end], [], d, 0, 0, 0, 0)
    else if n == 9 then Buffer(VALIDATE, 56, 120, [eth, end], [], d, 0, 0, 0, 0)
    else if n < 12 then Buffer(VALIDATE, 56, 120, [eth, end], [Act(7, None)], d, 0, 0, 0, 0)
    else Buffer(VALIDATE, 56, 120, [eth, end], [Act(7, None), Act(0, None)], d, 0, 0, 0, 0)
  }

  /** The lists that are pending then. */
  function Lists(n: nat): seq<TokenList> {
    if n == 0 then [EntryList]
    else if n == 1 then [CommandList]
    else if n == 2 then [NextVcAttr, ValueOf(11)]
    else if n <= 4 then [NextVcAttr]
    else if n == 5 then [NextItem]
    else if n == 6 then [EthFields]
    else if n == 7 then [NextItem]
    else if n == 8 then [ActionsList]
    else if n == 9 then [NextAction]
    else if n == 10 then [NoConf]
    else if n == 11 then [NextAction]
    else []
  }

  function Stage(n: nat, size: nat): View {
    var d := EthBlock(size);
    var blocks :=
      if n < 6 then [] else if n < 8 then [Block(d, 42)] else if n < 10 then [Block(d, 42), Block(d, 0)]
      else if n < 12 then [Block(d, 42), Block(d, 0), Block(d, 0)]
      else [Block(d, 42), Block(d, 0), Block(d, 0), Block(d, 0)];
    var obj := if n < 4 then 0 else if n == 4 then 8 else if n < 8 then 56 else if n == 8 then 88
               else if n < 12 then 120 else 136;
    View(Lists(n), if n == 2 then [[], [PortArg]] else if n == 12 then [] else [[]], obj, None,
         if n == 6 || n == 7 then 42 else 0, Filled(n, size), blocks, size)
  }

  function Args(n: nat): seq<Arg> {
    if n == 2 then [PortArg] else []
  }

  /** What the n-th word asks for besides its name. */
  predicate Fits(n: nat, size: nat, port: Word) {
    && (n == 2 ==> port.num.unsigned.Some?)
    && (n == 5 ==> EthBlock(size) >= 56 + 32)
    && (n == 7 ==> EthBlock(size) >= 56 + 64)
    && (n == 9 ==> EthBlock(size) >= 56 + 64 + 16)
    && (n == 11 ==> EthBlock(size) >= 56 + 64 + 32)
  }

  /** The words of a line so far are those of the table: the next is taken by candidate k, or the line
      is refused. */
  lemma Next(e: RssEnv, actions: seq<Token>, v: View, args: seq<Arg>, c: nat, eol: bool, last: bool, words: seq<Word>,
             k: nat, v': View, args': seq<Arg>)
    requires forall j :: 0 <= j < |words| ==> WordOk(words[j])
    requires words != [] && !Ends(v, c, eol, last) && v.next != []
    requires var list := v.next[|v.next| - 1];
             && ListOk(FlowToken, list) && k < |list.toks|
             && (|list.toks| == 1 || FlowToken(list.toks[k]).name == words[0].text)
             && Leads(v, args, list.toks[k], words[0], e, actions, v', args')
    ensures var i := v.next[|v.next| - 1].toks[k];
            LineOk(FlowToken, e, actions, v, args, c, eol, last, words)
            <==> Takes(v, args, i, FlowToken(i), words[0], e, actions)
                 && LineOk(FlowToken, e, actions, v', args', i, words[0].eol, words[0].last, words[1..])
  {
    hide Takes, FlowToken, After, Push, Ends, TokenFits;
    var list := v.next[|v.next| - 1];
    forall j | 0 <= j < |list.toks| && j != k
      ensures !Takes(v, args, list.toks[j], FlowToken(list.toks[j]), words[0], e, actions)
    {
      assert j < k || k < j;
      NotNamed(v, args, list.toks[j], FlowToken(list.toks[j]), words[0], e, actions);
    }
  }

  /** A token that takes a word leads to this view, with these arguments. */
  ghost predicate Leads(v: View, args: seq<Arg>, i: nat, w: Word, e: RssEnv, actions: seq<Token>, v': View,
                        args': seq<Arg>)
    requires WordOk(w)
  {
    var t := FlowToken(i);
    Takes(v, args, i, t, w, e, actions) ==>
      var a := After(v, i, t, w);
      && a.next != [] && a.owed != [] && Pops(t.call) <= |args|
      && Push(a, t) == v' && args[..|args| - Pops(t.call)] + t.args == args'
  }

  /** The tokens in full */
  function TokenOf(n: nat): Token {
    if n == 0 then Token("flow", [CommandList], [], Init, None)
    else if n == 1 then Token("validate", [NextVcAttr, ValueOf(11)], [PortArg], Vc, None)
    else if n == 2 then Token("{value}", [], [], Port, None)
    else if n == 3 then Token("ingress", [NextVcAttr], [], Vc, None)
    else if n == 4 then Token("pattern", [NextItem], [], Vc, None)
    else if n == 5 then Token("eth", [EthFields], [], Vc, Some(Priv(9, 14)))
    else if n == 6 then Token("/", [NextItem], [], Default, None)
    else if n == 7 then Token("end", [ActionsList], [], Vc, Some(Priv(0, 0)))
    else if n == 8 then Token("actions", [NextAction], [], Vc, None)
    else if n == 9 then Token("drop", [NoConf], [], Vc, Some(Priv(7, 0)))
    else if n == 10 then Token("/", [NextAction], [], Default, None)
    else Token("end", [], [], Vc, Some(Priv(0, 0)))
  }

  lemma TokenIs(n: nat, port: Word)
    requires n < 12
    ensures FlowToken(Tokens[n]) == TokenOf(n) && (n != 2 ==> TokenOf(n).name == ValidateLine(port)[n].text)
    ensures |TokenOf(n).next| <= 3 && |TokenOf(n).args| == Total(TokenOf(n).next)
  {
    if n < 5 {
      hide ItemToken, ActionToken;
    } else if n in {5, 6, 7} {
      hide ActionToken, CommandToken, ValueToken;
    } else {
      hide ItemToken, CommandToken, ValueToken;
    }
  }

  lemma InPlace(n: nat)
    requires n < 12
    ensures n == 2 ==> |Lists(n)[|Lists(n)| - 1].toks| == 1
    ensures |Lists(n)| > 0 && Places[n] < |Lists(n)[|Lists(n)| - 1].toks|
    ensures Lists(n)[|Lists(n)| - 1].toks[Places[n]] == Tokens[n] && ListOk(FlowToken, Lists(n)[|Lists(n)| - 1])
  {
    hide ListOk;
    EntryOk(EntryList);
    CommandsOk(CommandList);
    AttributesOk(NextVcAttr);
    ValuesOk(11);
    ItemsOk(NextItem);
    EthFieldsOk(EthFields);
    EntryOk(ActionsList);
    ActionsOk(NextAction);
    EntryOk(NoConf);
  }

  lemma WordsOk(port: Word)
    requires WordOk(port)
    ensures |ValidateLine(port)| == 12 && forall j :: 0 <= j < 12 ==> WordOk(ValidateLine(port)[j])
  {}

  lemma Onwards(words: seq<Word>, n: nat)
    requires n < |words|
    ensures words[n..][0] == words[n] && words[n..][1..] == words[n + 1..]
  {}

  /** One word is taken exactly when there is room for what it stores, and leads to the next stage. */
  ghost predicate Goes(n: nat, size: nat, port: Word, e: RssEnv, actions: seq<Token>) {
    && n < 12 && WordOk(ValidateLine(port)[n])
    && var i, w := Tokens[n], ValidateLine(port)[n];
    && (Takes(Stage(n, size), Args(n), i, FlowToken(i), w, e, actions) <==> Fits(n, size, port))
    && Leads(Stage(n, size), Args(n), i, w, e, actions, Stage(n + 1, size), Args(n + 1))
  }

  lemma PushOne(v: View, t: Token)
    requires |v.next| == |v.owed| == 1 && |t.next| <= 3 && |t.args| == Total(t.next)
    ensures Push(v, t) == v.(next := t.next, owed := Shares(t))
  {
    hide Split;
    SharesAreSplit(t);
    assert v.next[..0] + t.next == t.next;
    assert v.owed[..0] + Split(t.next, t.args) == Split(t.next, t.args);
  }

  lemma CommandWord(n: nat, size: nat, port: Word, e: RssEnv, actions: seq<Token>)
    requires n == 1 && WordOk(ValidateLine(port)[n])
    ensures Goes(n, size, port, e, actions)
  {
    hide Push, WordOk, FlowToken, ValueAccepted, CalledNext, CalledOwed, ParamView, CommandView,
      EthBlock, ItemView, ActView, BlockAt, Front, AlignFloor, AlignCeil, RoomFor;
    Aligned(size);
    TokenIs(n, port);
    PushOne(After(Stage(n, size), Tokens[n], TokenOf(n), ValidateLine(port)[n]), TokenOf(n));
  }

  /** A value gives way to what was pending below it. */
  lemma PushValue(v: View, t: Token)
    requires |v.next| == |v.owed| == 2 && t.next == [] && t.args == []
    ensures Push(v, t) == v.(next := [v.next[0]], owed := [v.owed[0]])
  {
    hide Split;
    SharesAreSplit(t);
  }

  /** The port is any number. */
  lemma PortTaken(w: Word, actions: seq<Token>)
    requires WordOk(w)
    ensures ValueAccepted(Port, w, [PortArg], actions) <==> w.num.unsigned.Some?
  {}

  lemma PortWord(n: nat, size: nat, port: Word, e: RssEnv, actions: seq<Token>)
    requires n == 2 && WordOk(ValidateLine(port)[n])
    ensures Goes(n, size, port, e, actions)
  {
    hide Push, WordOk, FlowToken, ValueAccepted, EthBlock;
    TokenIs(n, port);
    PushValue(Stage(n, size), TokenOf(n));
    PortTaken(port, actions);
    assert Tail([PortArg], 1) == [PortArg] && ValidateLine(port)[n] == port;
  }

  lemma AttributeWord(n: nat, size: nat, port: Word, e: RssEnv, actions: seq<Token>)
    requires n == 3 && WordOk(ValidateLine(port)[n])
    ensures Goes(n, size, port, e, actions)
  {
    hide Push, WordOk, FlowToken, ValueAccepted, CalledNext, CalledOwed, ParamView, CommandView,
      EthBlock, ItemView, ActView, BlockAt, Front, AlignFloor, AlignCeil, RoomFor;
    Aligned(size);
    TokenIs(n, port);
    PushOne(After(Stage(n, size), Tokens[n], TokenOf(n), ValidateLine(port)[n]), TokenOf(n));
  }

  lemma PatternWord(n: nat, size: nat, port: Word, e: RssEnv, actions: seq<Token>)
    requires n == 4 && WordOk(ValidateLine(port)[n])
    ensures Goes(n, size, port, e, actions)
  {
    hide Push, WordOk, FlowToken, ValueAccepted, CalledNext, CalledOwed, ParamView, CommandView,
      EthBlock, ItemView, ActView, BlockAt, Front, AlignFloor, AlignCeil, RoomFor;
    Aligned(size);
    TokenIs(n, port);
    PushOne(After(Stage(n, size), Tokens[n], TokenOf(n), ValidateLine(port)[n]), TokenOf(n));
  }

  lemma ItemWord(n: nat, size: nat, port: Word, e: RssEnv, actions: seq<Token>)
    requires n == 5 && WordOk(ValidateLine(port)[n])
    ensures Goes(n, size, port, e, actions)
  {
    hide Push, WordOk, FlowToken, ValueAccepted, CalledNext, CalledOwed, ParamView, CommandView,
      ActView;
    Aligned(size);
    TokenIs(n, port);
    PushOne(After(Stage(n, size), Tokens[n], TokenOf(n), ValidateLine(port)[n]), TokenOf(n));
  }

  lemma LastItemWord(n: nat, size: nat, port: Word, e: RssEnv, actions: seq<Token>)
    requires n == 7 && WordOk(ValidateLine(port)[n])
    ensures Goes(n, size, port, e, actions)
  {
    hide Push, WordOk, FlowToken, ValueAccepted, CalledNext, CalledOwed, ParamView, CommandView,
      EthBlock, ActView;
    Aligned(size);
    TokenIs(n, port);
    PushOne(After(Stage(n, size), Tokens[n], TokenOf(n), ValidateLine(port)[n]), TokenOf(n));
  }

  lemma ItemSlash(n: nat, size: nat, port: Word, e: RssEnv, actions: seq<Token>)
    requires n == 6 && WordOk(ValidateLine(port)[n])
    ensures Goes(n, size, port, e, actions)
  {
    hide Push, WordOk, FlowToken, ValueAccepted, CalledNext, CalledOwed, ParamView, CommandView,
      EthBlock, VcTakes, VcFits, VcView, BlockAt, Front, AlignFloor, AlignCeil;
    Aligned(size);
    TokenIs(n, port);
    PushOne(After(Stage(n, size), Tokens[n], TokenOf(n), ValidateLine(port)[n]), TokenOf(n));
  }

  lemma ActionSlash(n: nat, size: nat, port: Word, e: RssEnv, actions: seq<Token>)
    requires n == 10 && WordOk(ValidateLine(port)[n])
    ensures Goes(n, size, port, e, actions)
  {
    hide Push, WordOk, FlowToken, ValueAccepted, CalledNext, CalledOwed, ParamView, CommandView,
      EthBlock, VcTakes, VcFits, VcView, BlockAt, Front, AlignFloor, AlignCeil;
    Aligned(size);
    TokenIs(n, port);
    PushOne(After(Stage(n, size), Tokens[n], TokenOf(n), ValidateLine(port)[n]), TokenOf(n));
  }

  lemma ActionsWord(n: nat, size: nat, port: Word, e: RssEnv, actions: seq<Token>)
    requires n == 8 && WordOk(ValidateLine(port)[n])
    ensures Goes(n, size, port, e, actions)
  {
    hide Push, WordOk, FlowToken, ValueAccepted, CalledNext, CalledOwed, ParamView, CommandView,
      EthBlock, ItemView, ActView, BlockAt, Front, AlignFloor, RoomFor;
    Aligned(size);
    TokenIs(n, port);
    PushOne(After(Stage(n, size), Tokens[n], TokenOf(n), ValidateLine(port)[n]), TokenOf(n));
  }

  lemma ActionWord(n: nat, size: nat, port: Word, e: RssEnv, actions: seq<Token>)
    requires n == 9 && WordOk(ValidateLine(port)[n])
    ensures Goes(n, size, port, e, actions)
  {
    hide Push, WordOk, FlowToken, ValueAccepted, CalledNext, CalledOwed, ParamView, CommandView,
      EthBlock, ItemView;
    Aligned(size);
    TokenIs(n, port);
    PushOne(After(Stage(n, size), Tokens[n], TokenOf(n), ValidateLine(port)[n]), TokenOf(n));
  }

  lemma LastActionWord(n: nat, size: nat, port: Word, e: RssEnv, actions: seq<Token>)
    requires n == 11 && WordOk(ValidateLine(port)[n])
    ensures Goes(n, size, port, e, actions)
  {
    hide Push, WordOk, FlowToken, ValueAccepted, CalledNext, CalledOwed, ParamView, CommandView,
      EthBlock, ItemView;
    Aligned(size);
    TokenIs(n, port);
    PushOne(After(Stage(n, size), Tokens[n], TokenOf(n), ValidateLine(port)[n]), TokenOf(n));
  }

  lemma Step(n: nat, size: nat, port: Word, e: RssEnv, actions: seq<Token>)
    requires 0 < n < 12 && WordOk(ValidateLine(port)[n])
    ensures Goes(n, size, port, e, actions)
  {
    hide Goes, WordOk;
    match n
    case 1 => CommandWord(n, size, port, e, actions);
    case 2 => PortWord(n, size, port, e, actions);
    case 3 => AttributeWord(n, size, port, e, actions);
    case 4 => PatternWord(n, size, port, e, actions);
    case 5 => ItemWord(n, size, port, e, actions);
    case 6 => ItemSlash(n, size, port, e, actions);
    case 7 => LastItemWord(n, size, port, e, actions);
    case 8 => ActionsWord(n, size, port, e, actions);
    case 9 => ActionWord(n, size, port, e, actions);
    case 10 => ActionSlash(n, size, port, e, actions);
    case _ => LastActionWord(n, size, port, e, actions);
  }

  lemma AtEnd(e: RssEnv, actions: seq<Token>, v: View, args: seq<Arg>, c: nat, eol: bool, last: bool)
    requires v.next == [] && c != ZERO
    ensures LineOk(FlowToken, e, actions, v, args, c, eol, last, [])
  {}

  lemma NotAtEnd(n: nat, size: nat, c: nat, eol: bool, last: bool)
    requires n < 12
    ensures Stage(n, size).next == Lists(n) != [] && !Ends(Stage(n, size), c, eol, last)
  {}

  /** Reading on after n words. */
  lemma {:induction false} Rest(n: nat, size: nat, port: Word, e: RssEnv, actions: seq<Token>, c: nat, eol: bool,
                                last: bool, words: seq<Word>)
    requires 0 < n <= 12 && c != ZERO && words == ValidateLine(port) && |words| == 12 && forall j :: 0 <= j < 12 ==> WordOk(words[j])
    ensures LineOk(FlowToken, e, actions, Stage(n, size), Args(n), c, eol, last, words[n..])
       <==> forall m :: n <= m < 12 ==> Fits(m, size, port)
    decreases 12 - n
  {
    hide Takes, FlowToken, ListOk, Leads, Fits, ValidateLine, LineOk, WordOk, Stage, Lists, TokenOf, Ends, Args;
    if n < 12 {
      Onwards(words, n);
      InPlace(n);
      TokenIs(n, port);
      Step(n, size, port, e, actions);
      NotAtEnd(n, size, c, eol, last);
      Next(e, actions, Stage(n, size), Args(n), c, eol, last, words[n..], Places[n], Stage(n + 1, size), Args(n + 1));
      Rest(n + 1, size, port, e, actions, Tokens[n], words[n].eol, words[n].last, words);
    } else {
      assert words[n..] == [];
      AtEnd(e, actions, Stage(n, size), Args(n), c, eol, last) by {
        assert Lists(n) == [] && Stage(n, size).next == [] by {
          LastStage(size);
        }
      }
    }
  }

  lemma LastStage(size: nat)
    ensures Stage(12, size).next == Lists(12) == []
  {}

  /** The first word finds the list of the first token, whatever an earlier line left in the buffer. */
  lemma FirstWord(out: Buffer, size: nat, port: Word, e: RssEnv, actions: seq<Token>)
    requires WordOk(Plain("flow"))
    ensures var v, w := StartView(out, size).(next := [EntryList], owed := [[]]), Plain("flow");
            && (Takes(v, [], FLOW, FlowToken(FLOW), w, e, actions) <==> size >= 56)
            && Leads(v, [], FLOW, w, e, actions, Stage(1, size), [])
  {
    hide Push, WordOk, FlowToken, ValueAccepted;
    TokenIs(0, port);
    var v := StartView(out, size).(next := [EntryList], owed := [[]]);
    PushOne(After(v, FLOW, TokenOf(0), Plain("flow")), TokenOf(0));
  }

  lemma Begin(v: View, e: RssEnv, actions: seq<Token>, words: seq<Word>)
    requires v.next == [] && forall j :: 0 <= j < |words| ==> WordOk(words[j])
    ensures LineOk(FlowToken, e, actions, v, [], ZERO, false, false, words)
       <==> LineOk(FlowToken, e, actions, v.(next := [EntryList], owed := [[]]), [], ZERO, false, false, words)
  {
    hide Takes, RestOk, CommandToken, ItemToken, ActionToken, ValueToken, WordOk;
    assert Entering(FlowToken, v) == v.(next := [EntryList], owed := [[]]);
  }

  /** The line is accepted exactly when the port is a number and the buffer has 194 bytes: the header,
      two items, two actions, and the fields of the eth item above them, aligned to 8 bytes. */
  lemma ValidateLineIff(port: Word, out: Buffer, size: nat, e: RssEnv, actions: seq<Token>)
    requires WordOk(port)
    ensures forall j :: 0 <= j < |ValidateLine(port)| ==> WordOk(ValidateLine(port)[j])
    ensures LineOk(FlowToken, e, actions, StartView(out, size), [], ZERO, false, false, ValidateLine(port))
       <==> size >= 194 && port.num.unsigned.Some?
  {
    hide Takes, FlowToken, ListOk, Leads, LineOk, WordOk, Stage, Args, Ends, TokenOf, Goes;
    var words, v := ValidateLine(port), StartView(out, size);
    var v0 := v.(next := [EntryList], owed := [[]]);
    WordsOk(port);
    assert words[0] == Plain("flow");
    Begin(v, e, actions, words);
    FirstWord(out, size, port, e, actions);
    EntryOk(EntryList);
    Unended(v0);
    Onwards(words, 0);
    assert words[0..] == words;
    Next(e, actions, v0, [], ZERO, false, false, words, 0, Stage(1, size), []);
    NoArgsYet();
    Rest(1, size, port, e, actions, FLOW, true, false, words);
    RoomIs(size, port);
  }

  lemma Unended(v: View)
    requires v.next == [EntryList]
    ensures !Ends(v, ZERO, false, false)
  {}

  lemma NoArgsYet()
    ensures Args(1) == []
  {}

  lemma RoomIs(size: nat, port: Word)
    ensures size >= 56 && (forall m :: 1 <= m < 12 ==> Fits(m, size, port))
       <==> size >= 194 && port.num.unsigned.Some?
  {
    if forall m :: 1 <= m < 12 ==> Fits(m, size, port) {
      assert Fits(2, size, port) && Fits(11, size, port);
    }
  }
}
