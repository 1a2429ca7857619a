/** The output buffer of the flow command parser: behind its header, pattern items and actions grow
    upwards while the structures they point to grow downwards from the end.

    Addresses are offsets into the buffer.
  */
module FlowArena {
  import opened FlowTokens
  import opened Optional

  /** sizeof(struct buffer), sizeof(struct rte_flow_item), sizeof(struct rte_flow_action) */
  const HEADER: nat := 56
  const ITEM: nat := 32
  const ACT: nat := 16

  datatype Item = Item(kind: nat, spec: Option<nat>, last: Option<nat>, mask: Option<nat>)

  datatype Act = Act(kind: nat, conf: Option<nat>)

  /** The words of struct buffer that the parser itself maintains; pattern and actions are 0 before
      they are set. */
  datatype Buffer = Buffer(command: nat, pattern: nat, actions: nat, items: seq<Item>, acts: seq<Act>, data: nat,
                           rule: nat, ruleN: nat, group: nat, groupN: nat)

  const Blank := Buffer(0, 0, 0, [], [], 0, 0, 0, 0, 0)

  /** A structure taken from the end of the buffer: spec, last and mask of an item, or the
      configuration of an action. */
  datatype Block = Block(at: nat, size: nat)

  function AlignFloor(x: int): int { x - x % 8 }
  function AlignCeil(x: nat): nat { x + (8 - x % 8) % 8 }

  /** End of the part that grows upwards. */
  function Front(out: Buffer): nat {
    if out.actions != 0 then out.actions + ACT * |out.acts|
    else if out.pattern != 0 then out.pattern + ITEM * |out.items|
    else HEADER
  }

  function EndOf(b: Block): nat { b.at + b.size }

  /** Blocks are aligned and follow each other downwards from the end of the buffer to data. */
  ghost predicate Stacked(blocks: seq<Block>, data: nat, size: nat) {
    && (forall i :: 0 <= i < |blocks| ==> blocks[i].at % 8 == 0 && data <= blocks[i].at && EndOf(blocks[i]) <= size)
    && (forall i, j :: 0 <= i < j < |blocks| ==> EndOf(blocks[j]) <= blocks[i].at)
    && (blocks != [] ==> blocks[|blocks| - 1].at == data)
  }

  /** The pointers of an item go to the thirds of its block. */
  ghost predicate ItemPoints(item: Item, b: Block) {
    && b.size % 3 == 0
    && (item.spec.Some? ==> item.spec.value == b.at)
    && (item.last.Some? ==> item.last.value == b.at + b.size / 3)
    && (item.mask.Some? ==> item.mask.value == b.at + 2 * (b.size / 3))
  }

  ghost predicate ActPoints(act: Act, b: Block) {
    act.conf == if b.size == 0 then None else Some(b.at)
  }

  ghost predicate ArenaOk(out: Buffer, blocks: seq<Block>, size: nat) {
    && (if out.pattern == 0 then out.items == [] && out.actions == 0 else out.pattern == HEADER)
    && (if out.actions == 0 then out.acts == [] else out.actions == HEADER + ITEM * |out.items|)
    && HEADER <= Front(out) <= out.data <= size
    && |blocks| == |out.items| + |out.acts|
    && Stacked(blocks, out.data, size)
    && ItemsPoint(out.items, blocks[..|out.items|])
    && ActsPoint(out.acts, blocks[|out.items|..])
  }

  ghost predicate ItemsPoint(items: seq<Item>, blocks: seq<Block>) {
    |items| == |blocks| && forall i :: 0 <= i < |items| ==> ItemPoints(items[i], blocks[i])
  }

  ghost predicate ActsPoint(acts: seq<Act>, blocks: seq<Block>) {
    |acts| == |blocks| && forall i :: 0 <= i < |acts| ==> ActPoints(acts[i], blocks[i])
  }

  // ----- opening a block -----

  /** Where a block of n bytes would start. */
  function BlockAt(out: Buffer, n: nat): int {
    AlignFloor(out.data - n)
  }

  function WithItem(out: Buffer, kind: nat, n: nat): Buffer
    requires BlockAt(out, n) >= 0
  {
    out.(items := out.items + [Item(kind, None, None, None)], data := BlockAt(out, n))
  }

  function WithAct(out: Buffer, kind: nat, n: nat): Buffer
    requires BlockAt(out, n) >= 0
  {
    out.(acts := out.acts + [Act(kind, if n == 0 then None else Some(BlockAt(out, n) as nat))], data := BlockAt(out, n))
  }

  lemma StackMore(blocks: seq<Block>, data: nat, size: nat, n: nat)
    requires Stacked(blocks, data, size) && AlignFloor(data - n) >= 0 && data <= size
    ensures Stacked(blocks + [Block(AlignFloor(data - n), n)], AlignFloor(data - n), size)
  {
    var more := blocks + [Block(AlignFloor(data - n), n)];
    forall i, j | 0 <= i < j < |more|
      ensures EndOf(more[j]) <= more[i].at
    {
      assert more[i] == blocks[i];
      if j < |blocks| {
        assert more[j] == blocks[j];
      }
    }
  }

  lemma OpenItemKeepsArena(out: Buffer, blocks: seq<Block>, size: nat, kind: nat, n: nat)
    requires ArenaOk(out, blocks, size) && out.pattern != 0 && out.actions == 0 && n % 3 == 0
    requires out.pattern + ITEM * |out.items| + ITEM <= BlockAt(out, n)
    ensures ArenaOk(WithItem(out, kind, n), blocks + [Block(BlockAt(out, n), n)], size)
  {
    StackMore(blocks, out.data, size, n);
    hide Stacked, AlignFloor;
    var b := Block(BlockAt(out, n), n);
    assert out.acts == [] && blocks[..|out.items|] == blocks;
    assert (blocks + [b])[..|out.items| + 1] == blocks + [b];
    assert ActsPoint([], (blocks + [b])[|out.items| + 1..]);
  }

  lemma OpenActKeepsArena(out: Buffer, blocks: seq<Block>, size: nat, kind: nat, n: nat)
    requires ArenaOk(out, blocks, size) && out.actions != 0
    requires out.actions + ACT * |out.acts| + ACT <= BlockAt(out, n)
    ensures ArenaOk(WithAct(out, kind, n), blocks + [Block(BlockAt(out, n), n)], size)
  {
    StackMore(blocks, out.data, size, n);
    hide Stacked, ItemsPoint, AlignFloor;
    var b := Block(BlockAt(out, n), n);
    assert (blocks + [b])[..|out.items|] == blocks[..|out.items|];
    assert (blocks + [b])[|out.items|..] == blocks[|out.items|..] + [b];
  }

  // ----- what the parser may write -----

  ghost predicate InNewest(blocks: seq<Block>, p: int) {
    blocks != [] && blocks[|blocks| - 1].at <= p < blocks[|blocks| - 1].at + blocks[|blocks| - 1].size
  }

  ghost predicate InEntry(start: nat, n: nat, p: int) {
    n > 0 && start + 4 * (n - 1) <= p < start + 4 * n
  }

  /** Bytes a value may go to: the fields of the header meant for values, the newest block, or the
      newest entry of the list of rules or groups. */
  ghost predicate MayWrite(out: Buffer, blocks: seq<Block>, p: int) {
    || 4 <= p < 6
    || (out.command != DESTROY && out.command != LIST && 8 <= p < 20)
    || InNewest(blocks, p)
    || (out.command == DESTROY && InEntry(out.rule, out.ruleN, p))
    || (out.command == LIST && InEntry(out.group, out.groupN, p))
  }

  ghost predicate WritesOnly(before: seq<bv8>, after: seq<bv8>, out: Buffer, blocks: seq<Block>) {
    |before| == |after| && forall p :: 0 <= p < |before| && before[p] != after[p] ==> MayWrite(out, blocks, p)
  }

  function Slice(mem: seq<bv8>, b: Block): seq<bv8> {
    if b.at + b.size <= |mem| then mem[b.at..b.at + b.size] else []
  }

  /** What may be written is neither a word the parser maintains, nor an item or an action, nor part
      of an earlier block. */
  lemma WritableIsSafe(out: Buffer, blocks: seq<Block>, size: nat, p: nat, i: nat)
    requires ArenaOk(out, blocks, size) && MayWrite(out, blocks, p) && out.command != DESTROY && out.command != LIST
    ensures p < 20 || Front(out) <= p
    ensures i < |blocks| - 1 ==> !(blocks[i].at <= p < blocks[i].at + blocks[i].size)
  {
    if i < |blocks| - 1 {
      assert EndOf(blocks[|blocks| - 1]) <= blocks[i].at;
    }
  }

  /** Rules and groups: neither their own bookkeeping words nor an earlier entry. */
  lemma EntriesAreSafe(out: Buffer, p: nat, i: nat)
    requires out.command == DESTROY || out.command == LIST
    requires MayWrite(out, [], p) && out.rule == HEADER && out.group == HEADER
    requires i + 1 < if out.command == DESTROY then out.ruleN else out.groupN
    ensures 4 <= p < 6 || HEADER <= p
    ensures !(HEADER + 4 * i <= p < HEADER + 4 * (i + 1))
  {}

  /** Blocks but the newest hold what they held when the next one was opened. */
  ghost predicate FrozenOk(mem: seq<bv8>, blocks: seq<Block>, frozen: seq<seq<bv8>>) {
    && |frozen| == (if blocks == [] then 0 else |blocks| - 1)
    && forall i :: 0 <= i < |frozen| ==> Slice(mem, blocks[i]) == frozen[i]
  }

  lemma EarlierBlockKept(before: seq<bv8>, after: seq<bv8>, out: Buffer, blocks: seq<Block>, i: nat)
    requires WritesOnly(before, after, out, blocks) && i + 1 < |blocks|
    requires ArenaOk(out, blocks, |before|) && out.command != DESTROY && out.command != LIST
    ensures Slice(after, blocks[i]) == Slice(before, blocks[i])
  {
    hide ItemsPoint, ActsPoint;
    var b, newest := blocks[i], blocks[|blocks| - 1];
    assert EndOf(newest) <= b.at && EndOf(b) <= |before| && newest.at == out.data;
    forall p | b.at <= p < b.at + b.size
      ensures before[p] == after[p]
    {
      hide Stacked;
      assert !MayWrite(out, blocks, p);
    }
  }

  lemma KeepFrozen(before: seq<bv8>, after: seq<bv8>, out: Buffer, blocks: seq<Block>, frozen: seq<seq<bv8>>)
    requires FrozenOk(before, blocks, frozen) && WritesOnly(before, after, out, blocks)
    requires blocks != [] ==> ArenaOk(out, blocks, |before|) && out.command != DESTROY && out.command != LIST
    ensures FrozenOk(after, blocks, frozen)
  {
    forall i | 0 <= i < |frozen|
      ensures Slice(after, blocks[i]) == frozen[i]
    {
      EarlierBlockKept(before, after, out, blocks, i);
    }
  }

  /** Opening a block settles the one before it. */
  lemma FreezeLast(before: seq<bv8>, after: seq<bv8>, out: Buffer, blocks: seq<Block>, b: Block,
                   frozen: seq<seq<bv8>>)
    requires FrozenOk(before, blocks, frozen) && |before| == |after|
    requires ArenaOk(out, blocks + [b], |before|)
    requires forall p :: 0 <= p < |before| && before[p] != after[p] ==> b.at <= p < b.at + b.size
    ensures FrozenOk(after, blocks + [b],
                     if blocks == [] then frozen else frozen + [Slice(before, blocks[|blocks| - 1])])
  {
    hide ItemsPoint, ActsPoint, Slice;
    var more := blocks + [b];
    var frozen' := if blocks == [] then frozen else frozen + [Slice(before, blocks[|blocks| - 1])];
    forall i | 0 <= i < |frozen'|
      ensures Slice(after, more[i]) == frozen'[i]
    {
      assert more[i] == blocks[i] && more[|blocks|] == b;
      assert EndOf(more[|blocks|]) <= more[i].at && EndOf(more[i]) <= |before|;
      SameSlice(before, after, blocks[i]);
    }
  }

  lemma SameSlice(before: seq<bv8>, after: seq<bv8>, b: Block)
    requires |before| == |after| && EndOf(b) <= |before|
    requires forall p :: b.at <= p < b.at + b.size ==> before[p] == after[p]
    ensures Slice(before, b) == Slice(after, b)
  {}

  // ----- terminated lists -----

  ghost predicate NoEndItem(items: seq<Item>) {
    forall i :: 0 <= i < |items| ==> items[i].kind != TYPE_END
  }

  ghost predicate NoEndAct(acts: seq<Act>) {
    forall i :: 0 <= i < |acts| ==> acts[i].kind != TYPE_END
  }

  /** END comes last and only there. */
  ghost predicate ItemsEnded(items: seq<Item>) {
    items != [] && items[|items| - 1].kind == TYPE_END && NoEndItem(items[..|items| - 1])
  }

  ghost predicate ActsEnded(acts: seq<Act>) {
    acts != [] && acts[|acts| - 1].kind == TYPE_END && NoEndAct(acts[..|acts| - 1])
  }
}
