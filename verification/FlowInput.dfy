/** Reading values: the callbacks of the flow command parser that take an argument from the stack
    and store what a word spells.
  */
module FlowInput {
  import opened BitFill
  import opened FlowTokens
  import opened Optional
  import opened FlowValues
  import opened PrefixMask

  /** The bytes of an argument's field, in the object and in the object that takes a full mask. */
  ghost predicate InField(a: Arg, obj: nat, objmask: Option<nat>, p: int) {
    || obj + a.offset <= p < obj + a.offset + a.size
    || (objmask.Some? && objmask.value + a.offset <= p < objmask.value + a.offset + a.size)
  }

  ghost predicate Hit(args: seq<Arg>, obj: nat, objmask: Option<nat>, p: int) {
    exists j :: 0 <= j < |args| && InField(args[j], obj, objmask, p)
  }

  /** Only the fields of these arguments changed. */
  ghost predicate FieldsOnly(before: seq<bv8>, after: seq<bv8>, args: seq<Arg>, obj: nat, objmask: Option<nat>) {
    |before| == |after| && forall p :: 0 <= p < |before| && before[p] != after[p] ==> Hit(args, obj, objmask, p)
  }

  ghost predicate SameBut(before: seq<bv8>, after: seq<bv8>, lo: nat, hi: nat) {
    |before| == |after| && forall p :: 0 <= p < |before| && !(lo <= p < hi) ==> before[p] == after[p]
  }

  /** The field lies in the buffer, and its mask does not overlap it. */
  ghost predicate Room(a: Arg, obj: nat, objmask: Option<nat>, size: nat) {
    && MaskOk(a) && obj + a.offset + a.size <= size
    && (objmask.Some? ==>
          && objmask.value + a.offset + a.size <= size
          && (obj + a.offset + a.size <= objmask.value + a.offset
              || objmask.value + a.offset + a.size <= obj + a.offset))
  }

  lemma HitOne(a: Arg, before: seq<bv8>, after: seq<bv8>, obj: nat, objmask: Option<nat>)
    requires |before| == |after|
    requires forall p :: 0 <= p < |before| && before[p] != after[p] ==> InField(a, obj, objmask, p)
    ensures FieldsOnly(before, after, [a], obj, objmask)
  {
    hide InField;
    forall p | 0 <= p < |before| && before[p] != after[p]
      ensures Hit([a], obj, objmask, p)
    {
      assert InField([a][0], obj, objmask, p);
    }
  }

  function Part(mem: seq<bv8>, at: nat, n: nat): seq<bv8>
    requires at + n <= |mem|
  {
    mem[at..at + n]
  }

  function Last(args: seq<Arg>): Arg
    requires args != []
  {
    args[|args| - 1]
  }

  /** Bytes written over those at an address. */
  function Over(m: seq<bv8>, at: nat, b: seq<bv8>): (r: seq<bv8>)
    requires at + |b| <= |m|
    ensures |r| == |m|
  {
    m[..at] + b + m[at + |b|..]
  }

  lemma OverIs(m: seq<bv8>, at: nat, b: seq<bv8>)
    requires at + |b| <= |m|
    ensures SameBut(m, Over(m, at, b), at, at + |b|) && Part(Over(m, at, b), at, |b|) == b
  {}

  lemma IsOver(m: seq<bv8>, m': seq<bv8>, at: nat, b: seq<bv8>)
    requires at + |b| <= |m| && SameBut(m, m', at, at + |b|) && Part(m', at, |b|) == b
    ensures m' == Over(m, at, b)
  {
    forall p | 0 <= p < |m|
      ensures m'[p] == Over(m, at, b)[p]
    {
      if at <= p < at + |b| {
        assert Part(m', at, |b|)[p - at] == b[p - at];
      }
    }
  }

  /** The data of a string, padded with zeros; the mask covers the data only. */
  function WithData(m: seq<bv8>, data: Arg, bytes: seq<bv8>, obj: nat, objmask: Option<nat>): (r: seq<bv8>)
    requires Room(data, obj, objmask, |m|) && |bytes| <= data.size
    ensures |r| == |m|
  {
    var m1 := Over(m, obj + data.offset, bytes + seq(data.size - |bytes|, _ => 0));
    if objmask.Some? then Over(m1, objmask.value + data.offset, seq(|bytes|, _ => 0xff)) else m1
  }

  /** The address of the data, and in the mask the address of the mask of the data. */
  function WithAddress(m: seq<bv8>, address: Arg, data: Arg, obj: nat, objmask: Option<nat>, base: nat): (r: seq<bv8>)
    requires Room(address, obj, objmask, |m|)
    ensures |r| == |m|
  {
    var m1 := Over(m, obj + address.offset, IntBytes(base + obj + data.offset, address.size, false));
    if objmask.Some? then
      Over(m1, objmask.value + address.offset, IntBytes(base + objmask.value + data.offset, address.size, false))
    else m1
  }

  lemma DataWritten(m: seq<bv8>, data: Arg, bytes: seq<bv8>, obj: nat, objmask: Option<nat>)
    requires Room(data, obj, objmask, |m|) && |bytes| <= data.size
    ensures var m' := WithData(m, data, bytes, obj, objmask);
            && FieldsOnly(m, m', [data], obj, objmask)
            && Part(m', obj + data.offset, data.size) == bytes + seq(data.size - |bytes|, _ => 0)
            && (objmask.Some? ==>
                  && Part(m', objmask.value + data.offset, |bytes|) == seq(|bytes|, _ => 0xff)
                  && Part(m', objmask.value + data.offset + |bytes|, data.size - |bytes|)
                     == Part(m, objmask.value + data.offset + |bytes|, data.size - |bytes|))
  {
    hide MaskOk, Over, FieldsOnly;
    var padded := bytes + seq(data.size - |bytes|, _ => 0);
    OverIs(m, obj + data.offset, padded);
    var m1 := Over(m, obj + data.offset, padded);
    if objmask.Some? {
      OverIs(m1, objmask.value + data.offset, seq(|bytes|, _ => 0xff));
      TwoWrites(data, m, m1, WithData(m, data, bytes, obj, objmask), obj, objmask.value);
    } else {
      OneWrite(data, m, m1, obj, objmask);
    }
  }

  lemma AddressWritten(m: seq<bv8>, address: Arg, data: Arg, obj: nat, objmask: Option<nat>, base: nat)
    requires Room(address, obj, objmask, |m|)
    ensures var m' := WithAddress(m, address, data, obj, objmask, base);
            && FieldsOnly(m, m', [address], obj, objmask)
            && Part(m', obj + address.offset, address.size) == IntBytes(base + obj + data.offset, address.size, false)
            && (objmask.Some? ==>
                  Part(m', objmask.value + address.offset, address.size)
                  == IntBytes(base + objmask.value + data.offset, address.size, false))
  {
    hide MaskOk, Over, FieldsOnly, IntBytes;
    OverIs(m, obj + address.offset, IntBytes(base + obj + data.offset, address.size, false));
    var m1 := Over(m, obj + address.offset, IntBytes(base + obj + data.offset, address.size, false));
    if objmask.Some? {
      OverIs(m1, objmask.value + address.offset, IntBytes(base + objmask.value + data.offset, address.size, false));
      TwoWrites(address, m, m1, WithAddress(m, address, data, obj, objmask, base), obj, objmask.value);
    } else {
      OneWrite(address, m, m1, obj, objmask);
    }
  }

  /** The last n arguments. */
  function Tail(args: seq<Arg>, n: nat): seq<Arg> {
    if |args| < n then args else args[|args| - n..]
  }

  predicate Apart(x: nat, n: nat, y: nat, m: nat) {
    x + n <= y || y + m <= x
  }

  /** The fields of x stay clear of those of y. */
  predicate FieldsApart(x: Arg, y: Arg, obj: nat, objmask: Option<nat>) {
    && Apart(obj + x.offset, x.size, obj + y.offset, y.size)
    && (objmask.Some? ==>
          && Apart(obj + x.offset, x.size, objmask.value + y.offset, y.size)
          && Apart(objmask.value + x.offset, x.size, obj + y.offset, y.size))
  }

  predicate AllApart(address: Arg, length: Arg, data: Arg, obj: nat, objmask: Option<nat>) {
    && FieldsApart(data, address, obj, objmask) && FieldsApart(length, data, obj, objmask)
    && FieldsApart(length, address, obj, objmask)
  }

  lemma PartKept(before: seq<bv8>, after: seq<bv8>, x: Arg, y: Arg, obj: nat, objmask: Option<nat>)
    requires FieldsOnly(before, after, [y], obj, objmask) && FieldsApart(x, y, obj, objmask)
    requires obj + x.offset + x.size <= |before|
    ensures Part(after, obj + x.offset, x.size) == Part(before, obj + x.offset, x.size)
  {
    forall p | obj + x.offset <= p < obj + x.offset + x.size
      ensures before[p] == after[p]
    {}
  }

  lemma MaskKept(before: seq<bv8>, after: seq<bv8>, x: Arg, y: Arg, obj: nat, objmask: nat)
    requires FieldsOnly(before, after, [y], obj, Some(objmask)) && FieldsApart(x, y, obj, Some(objmask))
    requires objmask + x.offset + x.size <= |before|
    ensures Part(after, objmask + x.offset, x.size) == Part(before, objmask + x.offset, x.size)
  {
    forall p | objmask + x.offset <= p < objmask + x.offset + x.size
      ensures before[p] == after[p]
    {}
  }

  lemma FieldsOnlyMore(m0: seq<bv8>, m1: seq<bv8>, m2: seq<bv8>, some: seq<Arg>, y: Arg, all: seq<Arg>,
                       obj: nat, objmask: Option<nat>)
    requires FieldsOnly(m0, m1, some, obj, objmask) && FieldsOnly(m1, m2, [y], obj, objmask)
    requires y in all && forall x :: x in some ==> x in all
    ensures FieldsOnly(m0, m2, all, obj, objmask)
  {
    hide InField;
    forall p | 0 <= p < |m0| && m0[p] != m2[p]
      ensures Hit(all, obj, objmask, p)
    {
      if m0[p] != m1[p] {
        var j :| 0 <= j < |some| && InField(some[j], obj, objmask, p);
        assert some[j] in all;
        var k :| 0 <= k < |all| && all[k] == some[j];
        assert InField(all[k], obj, objmask, p);
      } else {
        var j :| 0 <= j < |[y]| && InField([y][j], obj, objmask, p);
        var k :| 0 <= k < |all| && all[k] == y;
        assert InField(all[k], obj, objmask, p);
      }
    }
  }

  lemma NothingChanged(mem: seq<bv8>, args: seq<Arg>, obj: nat, objmask: Option<nat>)
    ensures FieldsOnly(mem, mem, args, obj, objmask)
  {}

  /** One write to the object. */
  lemma OneWrite(a: Arg, before: seq<bv8>, after: seq<bv8>, obj: nat, objmask: Option<nat>)
    requires Room(a, obj, objmask, |before|) && SameBut(before, after, obj + a.offset, obj + a.offset + a.size)
    ensures FieldsOnly(before, after, [a], obj, objmask)
  {
    HitOne(a, before, after, obj, objmask);
  }

  /** A write to the object and one to its mask leave each other alone. */
  lemma TwoWrites(a: Arg, before: seq<bv8>, middle: seq<bv8>, after: seq<bv8>, obj: nat, objmask: nat)
    requires Room(a, obj, Some(objmask), |before|)
    requires SameBut(before, middle, obj + a.offset, obj + a.offset + a.size)
    requires SameBut(middle, after, objmask + a.offset, objmask + a.offset + a.size)
    ensures Part(after, obj + a.offset, a.size) == Part(middle, obj + a.offset, a.size)
    ensures Part(middle, objmask + a.offset, a.size) == Part(before, objmask + a.offset, a.size)
    ensures FieldsOnly(before, after, [a], obj, Some(objmask))
  {
    hide MaskOk;
    HitOne(a, before, after, obj, Some(objmask));
  }

  /** The values a word may name, as indices into a list of names. */
  function FirstName(names: seq<string>, text: string): (k: nat)
    ensures k <= |names| && (k < |names| ==> names[k] == text) && text !in names[..k]
  {
    if names == [] then 0
    else if names[0] == text then 0
    else
      var k := FirstName(names[1..], text);
      assert names[..k + 1] == [names[0]] + names[1..][..k];
      k + 1
  }

  /** for (i = 0; names[i]; ++i) if (!strcmp_partial(names[i], str, len)) break; */
  method FindName(names: seq<string>, text: string) returns (i: nat)
    ensures i <= |names| && (i < |names| ==> names[i] == text) && text !in names[..i]
  {
    i := 0;
    while i < |names|
      invariant i <= |names| && text !in names[..i]
    {
      if names[i] == text {
        return;
      }
      assert names[..i + 1] == names[..i] + [names[i]];
      i := i + 1;
    }
  }

  /** The prefix length fits the field, or the bit-mask. */
  predicate PrefixAccepted(u: nat, a: Arg) {
    if a.mask.Some? then u <= |Positions(a.mask.value, a.hton)| && Positions(a.mask.value, a.hton) != []
    else Effective(u) <= 8 * a.size
  }

  /** The field holds the top u bits. */
  ghost predicate PrefixField(a: Arg, u: nat, before: seq<bv8>, after: seq<bv8>)
    requires PrefixAccepted(u, a)
  {
    if a.mask.Some? then
      Deposited(a.mask.value, a.hton, before, after, TopValue(|Positions(a.mask.value, a.hton)|, u))
    else TopBits(after, a.hton, Effective(u))
  }

  ghost predicate FullField(a: Arg, before: seq<bv8>, after: seq<bv8>) {
    if a.mask.Some? then Deposited(a.mask.value, a.hton, before, after, U64 - 1)
    else after == seq(a.size, _ => 0xff)
  }

  /** The number parse_boolean() hands to parse_int(): odd names stand for 1; otherwise the rest of
      the line has to be a number. */
  function BooleanNum(text: string, rest: Num): Num {
    if text in ["1", "true", "yes", "Y", "on"] then Num(Some(1), Some(1))
    else if text in ["0", "false", "no", "N", "off"] then Num(Some(0), Some(0))
    else rest
  }

  lemma IsBooleanNum(i: nat, text: string, rest: Num)
    requires i <= |BooleanNames| && (i < |BooleanNames| ==> BooleanNames[i] == text) && text !in BooleanNames[..i]
    ensures BooleanNum(text, rest) == if i < |BooleanNames| then Num(Some(i % 2), Some(i % 2)) else rest
  {
    if i == |BooleanNames| {
      assert BooleanNames[..i] == BooleanNames;
      assert text !in BooleanNames;
      assert BooleanNames[0] == "0" && BooleanNames[1] == "1" && BooleanNames[2] == "false"
        && BooleanNames[3] == "true";
      assert BooleanNames[4] == "no" && BooleanNames[5] == "yes" && BooleanNames[6] == "N" && BooleanNames[7] == "Y";
      assert BooleanNames[8] == "off" && BooleanNames[9] == "on";
    }
  }

  predicate TakesAddress(a: Arg, n: nat) {
    a.mask.None? && a.size == n && a.hton
  }

  const BooleanNames: seq<string> := ["0", "1", "false", "true", "no", "yes", "N", "Y", "off", "on"]

  predicate StringAccepted(three: seq<Arg>, n: nat)
    requires |three| == 3 && n < 0x1_0000_0000
  {
    three[2].mask.None? && n <= three[2].size && IntAccepted(Num(Some(n), Some(n)), three[1])
  }

  function Names(tokens: seq<Token>): (names: seq<string>)
    ensures |names| == |tokens|
  {
    seq(|tokens|, i requires 0 <= i < |tokens| => tokens[i].name)
  }

  ghost predicate ActionNamed(actions: seq<Token>, text: string) {
    var k := FirstName(Names(actions), text); k < |actions| && actions[k].priv.Some?
  }

  lemma FirstIs(names: seq<string>, text: string, i: nat)
    requires i <= |names| && (i < |names| ==> names[i] == text) && text !in names[..i]
    ensures FirstName(names, text) == i
  {
    var k := FirstName(names, text);
    if k < i {
      assert false;
    } else if i < k {
      assert false;
    }
  }

  /** The callback of a value takes this word: for the arguments its list owns, in a table with these
      actions. */
  ghost predicate ValueAccepted(c: Call, w: Word, top: seq<Arg>, actions: seq<Token>)
    requires WordOk(w)
  {
    && |top| == Pops(c)
    && match c
       case Prefix => w.num.unsigned.Some? && PrefixAccepted(w.num.unsigned.value, top[0])
       case Boolean => IntAccepted(BooleanNum(w.text, w.rest), top[0])
       case String => StringAccepted(top, |w.text|)
       case Mac => w.mac.Some? && TakesAddress(top[0], 6)
       case Ipv4 => TakesAddress(top[0], 4) && (w.ip4.Some? || IntAccepted(w.num, top[0]))
       case Ipv6 => w.ip6.Some? && TakesAddress(top[0], 16)
       case Action => ActionNamed(actions, w.text)
       case Int => IntAccepted(w.num, top[0])
       case Port => IntAccepted(w.num, top[0])
       case _ => false
  }

  /** The characters of a word as bytes, in their order. */
  function TextBytes(text: string): (b: seq<bv8>)
    ensures |b| == |text| && forall k :: 0 <= k < |text| ==> b[k] as int == text[k] as int % 256
  {
    var b := seq(|text|, k requires 0 <= k < |text| => Byte(text[k] as nat));
    assert forall k :: 0 <= k < |text| ==> b[k] as int == text[k] as int % 256 by {
      forall k | 0 <= k < |text|
        ensures b[k] as int == text[k] as int % 256
      {
        hide Byte;
        ByteBack(text[k] as nat);
      }
    }
    b
  }

  class Reader {
    const mem: array<bv8>
    /** Address of the buffer */
    const base: nat
    var args: seq<Arg>
    var obj: nat
    var objmask: Option<nat>

    /** There is room for the fields of the last n arguments. */
    ghost predicate Ready(n: nat)
      reads this`args, this`obj, this`objmask
    {
      && |args| <= CTX_STACK_SIZE
      && forall j :: 0 <= j < |args| && |args| - n <= j ==> Room(args[j], obj, objmask, mem.Length)
    }

    constructor (size: nat, address: nat)
      ensures fresh(mem) && mem.Length == size && base == address && args == [] && objmask == None
    {
      mem := new bv8[size];
      base := address;
      args, obj, objmask := [], 0, None;
    }

    /** pop_args() */
    method PopArgs() returns (a: Option<Arg>)
      modifies this`args
      ensures old(args) == [] ==> a == None && args == []
      ensures old(args) != [] ==> a == Some(Last(old(args))) && args == old(args)[..|old(args)| - 1]
    {
      if args == [] {
        return None;
      }
      a := Some(Last(args));
      args := args[..|args| - 1];
    }

    /** push_args() */
    method PushArgs(a: Arg) returns (ok: bool)
      modifies this`args
      ensures ok <==> |old(args)| != CTX_STACK_SIZE
      ensures args == if ok then old(args) + [a] else old(args)
    {
      if |args| == CTX_STACK_SIZE {
        return false;
      }
      args := args + [a];
      return true;
    }

    /** memcpy() into the buffer */
    method Put(at: nat, bytes: seq<bv8>)
      requires at + |bytes| <= mem.Length
      modifies mem
      ensures SameBut(old(mem[..]), mem[..], at, at + |bytes|) && Part(mem[..], at, |bytes|) == bytes
      ensures mem[..] == Over(old(mem[..]), at, bytes)
    {
      var i: nat := 0;
      while i < |bytes|
        invariant i <= |bytes|
        invariant forall k :: 0 <= k < i ==> mem[at + k] == bytes[k]
        invariant forall p :: 0 <= p < mem.Length && !(at <= p < at + |bytes|) ==> mem[p] == old(mem[p])
      {
        mem[at + i] := bytes[i];
        i := i + 1;
      }
      forall k | 0 <= k < |bytes|
        ensures Part(mem[..], at, |bytes|)[k] == bytes[k]
      {}
      IsOver(old(mem[..]), mem[..], at, bytes);
    }

    /** memset() into the buffer */
    method Fill(at: nat, b: bv8, n: nat)
      requires at + n <= mem.Length
      modifies mem
      ensures SameBut(old(mem[..]), mem[..], at, at + n) && Part(mem[..], at, n) == seq(n, _ => b)
      ensures mem[..] == Over(old(mem[..]), at, seq(n, _ => b))
    {
      Put(at, seq(n, _ => b));
    }

    /** A value goes to a field: through its bit-mask, or in the size of the field. */
    method Store(at: nat, a: Arg, u: nat) returns (ok: bool)
      requires MaskOk(a) && at + a.size <= mem.Length
      modifies mem
      ensures ok <==> Storable(a)
      ensures ok ==> FieldHolds(a, Part(old(mem[..]), at, a.size), Part(mem[..], at, a.size), u)
      ensures !ok ==> mem[..] == old(mem[..])
      ensures SameBut(old(mem[..]), mem[..], at, at + a.size)
    {
      hide Positions, Deposited, IntBytes;
      if a.mask.Some? {
        ghost var before := mem[..];
        var n := ArgEntryBfFill(mem, at, a.mask.value, a.hton, u);
        Elsewhere(before, mem[..], at, at + a.size);
        assert Part(before, at, a.size) == old(mem[at..at + a.size])
          && Part(mem[..], at, a.size) == mem[at..at + a.size];
        if n == 0 {
          EmptyDeposit(a.mask.value, a.hton, before[at..at + a.size], mem[at..at + a.size], u);
          assert before == before[..at] + before[at..at + a.size] + before[at + a.size..];
          assert mem[..] == mem[..at] + mem[at..at + a.size] + mem[at + a.size..];
          return false;
        }
        return true;
      }
      if a.size !in {1, 2, 3, 4, 8} {
        return false;
      }
      Put(at, IntBytes(u, a.size, a.hton));
      return true;
    }

    lemma Elsewhere(before: seq<bv8>, after: seq<bv8>, lo: nat, hi: nat)
      requires lo <= hi <= |before| == |after| && before[..lo] == after[..lo] && before[hi..] == after[hi..]
      ensures SameBut(before, after, lo, hi)
    {
      forall p | 0 <= p < |before| && !(lo <= p < hi)
        ensures before[p] == after[p]
      {
        if p < lo {
          assert before[..lo][p] == after[..lo][p];
        } else {
          assert before[hi..][p - hi] == after[hi..][p - hi];
        }
      }
    }

    /** parse_int() */
    method ParseInt(num: Num) returns (ok: bool)
      requires Ready(1) && NumOk(num)
      modifies this`args, mem
      ensures ok <==> old(args) != [] && IntAccepted(num, Last(old(args)))
      ensures ok ==> args == old(args)[..|old(args)| - 1]
      ensures !ok ==> args == old(args) && mem[..] == old(mem[..])
      ensures ok ==> Stored(Last(old(args)), Taken(num, Last(old(args))).value, old(mem[..]), mem[..])
      ensures FieldsOnly(old(mem[..]), mem[..], Tail(old(args), 1), obj, objmask)
    {
      hide FieldHolds, MaskOk, Storable;
      if num.signed.Some? {
        SignedBack(num.signed.value);
      }
      var top := PopArgs();
      if top.None? {
        return false;
      }
      var a := top.value;
      var u := if a.sign then (if num.signed.Some? then Some(num.signed.value % U64) else None) else num.unsigned;
      ok := false;
      if u.Some? && !(a.bounded && ((a.sign && (Signed(u.value) < Signed(a.min) || Signed(u.value) > Signed(a.max)))
                                    || (!a.sign && (u.value < a.min || u.value > a.max)))) {
        ok := StoreBoth(a, u.value);
      }
      if !ok {
        var pushed := PushArgs(a);
        assert args == old(args);
        return false;
      }
      assert Tail(old(args), 1) == [a];
    }

    /** The field holds the value, and its mask, where one is asked for, all ones. */
    ghost predicate Stored(a: Arg, u: nat, before: seq<bv8>, after: seq<bv8>)
      reads this`obj, this`objmask
      requires |before| == |after| == mem.Length && Room(a, obj, objmask, mem.Length)
    {
      && FieldHolds(a, Part(before, obj + a.offset, a.size), Part(after, obj + a.offset, a.size), u)
      && (objmask.Some? ==>
            FieldHolds(a, Part(before, objmask.value + a.offset, a.size), Part(after, objmask.value + a.offset, a.size),
                       U64 - 1))
    }

    method StoreBoth(a: Arg, u: nat) returns (ok: bool)
      requires Room(a, obj, objmask, mem.Length)
      modifies mem
      ensures ok <==> Storable(a)
      ensures !ok ==> mem[..] == old(mem[..])
      ensures ok ==> Stored(a, u, old(mem[..]), mem[..])
      ensures FieldsOnly(old(mem[..]), mem[..], [a], obj, objmask)
    {
      hide FieldHolds, MaskOk, Storable, SameBut, Part, FieldsOnly;
      ghost var before := mem[..];
      ok := Store(obj + a.offset, a, u);
      OneWrite(a, before, mem[..], obj, objmask);
      if ok && objmask.Some? {
        ghost var middle := mem[..];
        ok := Store(objmask.value + a.offset, a, U64 - 1);
        TwoWrites(a, before, middle, mem[..], obj, objmask.value);
      }
    }

    /** parse_prefix() */
    method ParsePrefix(num: Num) returns (ok: bool)
      requires Ready(1) && NumOk(num)
      modifies this`args, mem
      ensures ok <==> old(args) != [] && num.unsigned.Some? && PrefixAccepted(num.unsigned.value, Last(old(args)))
      ensures ok ==> args == old(args)[..|old(args)| - 1]
      ensures !ok ==> args == old(args) && mem[..] == old(mem[..])
      ensures ok ==> PrefixHeld(Last(old(args)), num.unsigned.value, old(mem[..]), mem[..])
      ensures FieldsOnly(old(mem[..]), mem[..], Tail(old(args), 1), obj, objmask)
    {
      hide MaskOk, PrefixAccepted, PrefixHeld;
      var top := PopArgs();
      if top.None? {
        return false;
      }
      var a := top.value;
      ok := false;
      if num.unsigned.Some? {
        ok := StorePrefix(a, num.unsigned.value);
      }
      if !ok {
        var pushed := PushArgs(a);
        assert args == old(args);
        return false;
      }
      assert Tail(old(args), 1) == [a];
    }

    ghost predicate PrefixHeld(a: Arg, u: nat, before: seq<bv8>, after: seq<bv8>)
      reads this`obj, this`objmask
      requires |before| == |after| == mem.Length && Room(a, obj, objmask, mem.Length) && PrefixAccepted(u, a)
    {
      && PrefixField(a, u, Part(before, obj + a.offset, a.size), Part(after, obj + a.offset, a.size))
      && (objmask.Some? ==>
            FullField(a, Part(before, objmask.value + a.offset, a.size), Part(after, objmask.value + a.offset, a.size)))
    }

    method StorePrefix(a: Arg, u: nat) returns (ok: bool)
      requires Room(a, obj, objmask, mem.Length)
      modifies mem
      ensures ok <==> PrefixAccepted(u, a)
      ensures !ok ==> mem[..] == old(mem[..])
      ensures ok ==> PrefixHeld(a, u, old(mem[..]), mem[..])
      ensures FieldsOnly(old(mem[..]), mem[..], [a], obj, objmask)
    {
      hide PrefixAccepted, PrefixField, FullField, MaskOk, SameBut, Part, FieldsOnly;
      ghost var before := mem[..];
      ok := StorePrefixAt(obj + a.offset, a, u);
      OneWrite(a, before, mem[..], obj, objmask);
      if ok && objmask.Some? {
        ghost var middle := mem[..];
        StoreFull(objmask.value + a.offset, a);
        TwoWrites(a, before, middle, mem[..], obj, objmask.value);
      }
    }

    method StorePrefixAt(at: nat, a: Arg, u: nat) returns (ok: bool)
      requires MaskOk(a) && at + a.size <= mem.Length
      modifies mem
      ensures ok <==> PrefixAccepted(u, a)
      ensures !ok ==> mem[..] == old(mem[..])
      ensures ok ==> PrefixField(a, u, Part(old(mem[..]), at, a.size), Part(mem[..], at, a.size))
      ensures SameBut(old(mem[..]), mem[..], at, at + a.size)
    {
      hide Positions, Deposited, TopBits;
      ghost var before := mem[..];
      if a.mask.Some? {
        ok := BitMask(mem, at, a.mask.value, a.hton, u);
      } else {
        ok := ByteMask(mem, at, a.size, a.hton, u);
      }
      Elsewhere(before, mem[..], at, at + a.size);
      assert Part(before, at, a.size) == old(mem[at..at + a.size]) && Part(mem[..], at, a.size) == mem[at..at + a.size];
    }

    /** The mask of a field: every bit of its bit-mask, or all its bytes. */
    method StoreFull(at: nat, a: Arg)
      requires MaskOk(a) && at + a.size <= mem.Length
      modifies mem
      ensures FullField(a, Part(old(mem[..]), at, a.size), Part(mem[..], at, a.size))
      ensures SameBut(old(mem[..]), mem[..], at, at + a.size)
    {
      hide Positions, Deposited;
      ghost var before := mem[..];
      if a.mask.Some? {
        var n := ArgEntryBfFill(mem, at, a.mask.value, a.hton, U64 - 1);
        Elsewhere(before, mem[..], at, at + a.size);
        assert Part(before, at, a.size) == old(mem[at..at + a.size])
          && Part(mem[..], at, a.size) == mem[at..at + a.size];
      } else {
        Fill(at, 0xff, a.size);
        assert Part(mem[..], at, a.size) == mem[at..at + a.size];
      }
    }

    /** parse_boolean() */
    method ParseBoolean(text: string, rest: Num) returns (ok: bool)
      requires Ready(1) && NumOk(rest)
      modifies this`args, mem
      ensures ok <==> old(args) != [] && IntAccepted(BooleanNum(text, rest), Last(old(args)))
      ensures ok ==> args == old(args)[..|old(args)| - 1]
      ensures !ok ==> args == old(args) && mem[..] == old(mem[..])
      ensures ok ==>
                Stored(Last(old(args)), Taken(BooleanNum(text, rest), Last(old(args))).value, old(mem[..]), mem[..])
      ensures FieldsOnly(old(mem[..]), mem[..], Tail(old(args), 1), obj, objmask)
    {
      hide IntAccepted, FieldHolds, MaskOk;
      var top := PopArgs();
      if top.None? {
        return false;
      }
      var i := FindName(BooleanNames, text);
      var num := rest;
      if i < |BooleanNames| {
        num := Num(Some(i % 2), Some(i % 2));
      }
      IsBooleanNum(i, text, rest);
      var pushed := PushArgs(top.value);
      assert args == old(args);
      ok := ParseInt(num);
    }

    /** parse_mac_addr(), parse_ipv6_addr(): n bytes in network order */
    method ParseAddress(address: Option<seq<bv8>>, n: nat) returns (ok: bool)
      requires Ready(1) && (address.Some? ==> |address.value| == n)
      modifies this`args, mem
      ensures ok <==> old(args) != [] && address.Some? && TakesAddress(Last(old(args)), n)
      ensures ok ==> args == old(args)[..|old(args)| - 1]
      ensures !ok ==> args == old(args) && mem[..] == old(mem[..])
      ensures ok ==> AddressHeld(Last(old(args)), address.value, mem[..])
      ensures FieldsOnly(old(mem[..]), mem[..], Tail(old(args), 1), obj, objmask)
    {
      hide MaskOk;
      var top := PopArgs();
      if top.None? {
        return false;
      }
      var a := top.value;
      if a.mask.Some? || a.size != n || !a.hton || address.None? {
        var pushed := PushArgs(a);
        assert args == old(args);
        return false;
      }
      StoreAddress(a, address.value);
      assert Tail(old(args), 1) == [a];
      ok := true;
    }

    ghost predicate AddressHeld(a: Arg, bytes: seq<bv8>, after: seq<bv8>)
      reads this`obj, this`objmask
      requires |after| == mem.Length && Room(a, obj, objmask, mem.Length)
    {
      && Part(after, obj + a.offset, a.size) == bytes
      && (objmask.Some? ==> Part(after, objmask.value + a.offset, a.size) == seq(a.size, _ => 0xff))
    }

    method StoreAddress(a: Arg, bytes: seq<bv8>)
      requires Room(a, obj, objmask, mem.Length) && |bytes| == a.size
      modifies mem
      ensures AddressHeld(a, bytes, mem[..])
      ensures FieldsOnly(old(mem[..]), mem[..], [a], obj, objmask)
    {
      hide MaskOk, SameBut, Part, FieldsOnly;
      ghost var before := mem[..];
      Put(obj + a.offset, bytes);
      OneWrite(a, before, mem[..], obj, objmask);
      if objmask.Some? {
        ghost var middle := mem[..];
        Fill(objmask.value + a.offset, 0xff, a.size);
        TwoWrites(a, before, middle, mem[..], obj, objmask.value);
      }
    }

    /** parse_ipv4_addr(): dotted notation, or else a number */
    method ParseIpv4(address: Option<seq<bv8>>, num: Num) returns (ok: bool)
      requires Ready(1) && NumOk(num) && (address.Some? ==> |address.value| == 4)
      modifies this`args, mem
      ensures ok <==> && old(args) != [] && TakesAddress(Last(old(args)), 4)
                      && (address.Some? || IntAccepted(num, Last(old(args))))
      ensures ok ==> args == old(args)[..|old(args)| - 1]
      ensures !ok ==> args == old(args) && mem[..] == old(mem[..])
      ensures ok ==> if address.Some? then AddressHeld(Last(old(args)), address.value, mem[..])
                     else Stored(Last(old(args)), Taken(num, Last(old(args))).value, old(mem[..]), mem[..])
      ensures FieldsOnly(old(mem[..]), mem[..], Tail(old(args), 1), obj, objmask)
    {
      hide MaskOk, IntAccepted, FieldHolds, AddressHeld;
      var top := PopArgs();
      if top.None? {
        return false;
      }
      var a := top.value;
      if a.mask.Some? || a.size != 4 || !a.hton {
        var pushed := PushArgs(a);
        assert args == old(args);
        return false;
      }
      if address.None? {
        var pushed := PushArgs(a);
        assert args == old(args);
        ok := ParseInt(num);
        return;
      }
      StoreAddress(a, address.value);
      assert Tail(old(args), 1) == [a];
      ok := true;
    }

    /** parse_string(): the data goes to the last argument, its length to the one before, and its
        address to the one before that, unless that one is empty. */
    method ParseString(bytes: seq<bv8>) returns (ok: bool)
      requires Ready(3) && |bytes| < 0x1_0000_0000
      requires |args| >= 3 ==> args[|args| - 3].size <= 8
      modifies this`args, mem
      ensures ok <==> |old(args)| >= 3 && StringAccepted(Tail(old(args), 3), |bytes|)
      ensures ok ==> args == old(args)[..|old(args)| - 3]
      ensures !ok ==> args == old(args) && mem[..] == old(mem[..])
      ensures ok ==>
        var n := |old(args)|;
        StringHeld(old(args)[n - 3], old(args)[n - 2], old(args)[n - 1], bytes, old(mem[..]), mem[..])
      ensures FieldsOnly(old(mem[..]), mem[..], Tail(old(args), 3), obj, objmask)
    {
      hide MaskOk, IntAccepted, StringHeld, FieldsOnly;
      NothingChanged(mem[..], Tail(old(args), 3), obj, objmask);
      var data, length, address := PopThree();
      if data.None? {
        return false;
      }
      if length.None? {
        var pushed := PushArgs(data.value);
        assert args == old(args);
        return false;
      }
      if address.None? {
        var pushed := PushArgs(length.value);
        pushed := PushArgs(data.value);
        assert args == old(args);
        return false;
      }
      ghost var three := Tail(old(args), 3);
      assert three == [address.value, length.value, data.value];
      ok := false;
      if data.value.mask.None? && |bytes| <= data.value.size {
        ok := StoreString(address.value, length.value, data.value, bytes);
      }
      if !ok {
        var pushed := PushArgs(address.value);
        pushed := PushArgs(length.value);
        pushed := PushArgs(data.value);
        assert args == old(args);
      }
    }

    method PopThree() returns (data: Option<Arg>, length: Option<Arg>, address: Option<Arg>)
      modifies this`args
      ensures var n := |old(args)|;
              && (data.Some? <==> n >= 1) && (length.Some? <==> n >= 2) && (address.Some? <==> n >= 3)
              && (n >= 1 ==> data.value == old(args)[n - 1]) && (n >= 2 ==> length.value == old(args)[n - 2])
              && (n >= 3 ==> address.value == old(args)[n - 3])
              && args == if n >= 3 then old(args)[..n - 3] else []
    {
      data := PopArgs();
      length := PopArgs();
      address := PopArgs();
    }

    /** The length is stored like any number, then the data and its address are written over what is
        there. */
    ghost predicate StringHeld(address: Arg, length: Arg, data: Arg, bytes: seq<bv8>, before: seq<bv8>, after: seq<bv8>)
      reads this`obj, this`objmask
      requires |before| == |after| == mem.Length && |bytes| <= data.size
      requires Room(address, obj, objmask, mem.Length) && Room(length, obj, objmask, mem.Length)
      requires Room(data, obj, objmask, mem.Length)
    {
      exists m: seq<bv8> :: LengthStored(length, |bytes|, before, m) && after == StringWritten(m, address, data, bytes)
    }

    ghost predicate LengthStored(length: Arg, n: nat, before: seq<bv8>, m: seq<bv8>)
      reads this`obj, this`objmask
      requires |before| == mem.Length && Room(length, obj, objmask, mem.Length)
    {
      |m| == mem.Length && Stored(length, n, before, m) && FieldsOnly(before, m, [length], obj, objmask)
    }

    ghost function StringWritten(m: seq<bv8>, address: Arg, data: Arg, bytes: seq<bv8>): (r: seq<bv8>)
      reads this`obj, this`objmask
      requires |m| == mem.Length && |bytes| <= data.size
      requires Room(address, obj, objmask, mem.Length) && Room(data, obj, objmask, mem.Length)
      ensures |r| == |m|
    {
      WithAddress(WithData(m, data, bytes, obj, objmask), address, data, obj, objmask, base)
    }

    /** Fields that do not overlap hold the bytes padded with zeros, how many there are, and where
        they are; their masks cover the bytes, the whole length, and point to the mask of the bytes. */
    lemma StringFields(address: Arg, length: Arg, data: Arg, bytes: seq<bv8>, before: seq<bv8>, after: seq<bv8>)
      requires |before| == |after| == mem.Length && |bytes| <= data.size
      requires Room(address, obj, objmask, mem.Length) && Room(length, obj, objmask, mem.Length)
      requires Room(data, obj, objmask, mem.Length)
      requires StringHeld(address, length, data, bytes, before, after) && AllApart(address, length, data, obj, objmask)
      ensures Part(after, obj + data.offset, data.size) == bytes + seq(data.size - |bytes|, _ => 0)
      ensures Part(after, obj + address.offset, address.size) == IntBytes(base + obj + data.offset, address.size, false)
      ensures Stored(length, |bytes|, before, after)
      ensures objmask.Some? ==>
        && Part(after, objmask.value + data.offset, |bytes|) == seq(|bytes|, _ => 0xff)
        && Part(after, objmask.value + address.offset, address.size)
           == IntBytes(base + objmask.value + data.offset, address.size, false)
    {
      hide MaskOk, FieldHolds, FieldsOnly, FieldsApart, IntBytes, Part, WithData, WithAddress, Room;
      var m: seq<bv8> :| LengthStored(length, |bytes|, before, m) && after == StringWritten(m, address, data, bytes);
      var m2 := WithData(m, data, bytes, obj, objmask);
      RoomMeans(address, obj, objmask, mem.Length);
      RoomMeans(length, obj, objmask, mem.Length);
      RoomMeans(data, obj, objmask, mem.Length);
      DataWritten(m, data, bytes, obj, objmask);
      AddressWritten(m2, address, data, obj, objmask, base);
      PartKept(m2, after, data, address, obj, objmask);
      PartKept(m, m2, length, data, obj, objmask);
      PartKept(m2, after, length, address, obj, objmask);
      if objmask.Some? {
        MaskKept(m2, after, data, address, obj, objmask.value);
        MaskKept(m, m2, length, data, obj, objmask.value);
        MaskKept(m2, after, length, address, obj, objmask.value);
        Front(m2, after, objmask.value + data.offset, |bytes|, data.size);
      }
    }

    lemma RoomMeans(a: Arg, obj: nat, objmask: Option<nat>, size: nat)
      requires Room(a, obj, objmask, size)
      ensures obj + a.offset + a.size <= size && (objmask.Some? ==> objmask.value + a.offset + a.size <= size)
    {}

    lemma Front(m: seq<bv8>, m': seq<bv8>, at: nat, k: nat, n: nat)
      requires |m| == |m'| && k <= n && at + n <= |m| && Part(m', at, n) == Part(m, at, n)
      ensures Part(m', at, k) == Part(m, at, k)
    {
      assert Part(m', at, k) == Part(m', at, n)[..k] && Part(m, at, k) == Part(m, at, n)[..k];
    }

    /** Length first, then the data, then its address. */
    method StoreString(address: Arg, length: Arg, data: Arg, bytes: seq<bv8>) returns (ok: bool)
      requires Room(address, obj, objmask, mem.Length) && Room(length, obj, objmask, mem.Length)
      requires Room(data, obj, objmask, mem.Length) && |bytes| <= data.size && |bytes| < 0x1_0000_0000
      requires |args| < CTX_STACK_SIZE
      modifies this`args, mem
      ensures args == old(args)
      ensures ok <==> IntAccepted(Num(Some(|bytes|), Some(|bytes|)), length)
      ensures !ok ==> mem[..] == old(mem[..])
      ensures ok ==> StringHeld(address, length, data, bytes, old(mem[..]), mem[..])
      ensures FieldsOnly(old(mem[..]), mem[..], [address, length, data], obj, objmask)
    {
      hide *;
      ghost var all := [address, length, data];
      ghost var m0 := mem[..];
      NothingChanged(m0, all, obj, objmask);
      ok := StoreLength(length, |bytes|);
      if !ok {
        return;
      }
      ghost var m1 := mem[..];
      StoreData(data, bytes);
      ghost var m2 := mem[..];
      if address.size != 0 {
        StorePointer(address, data);
      } else {
        NoPointer(address, data, m2);
      }
      InAll(address, length, data);
      DataWritten(m1, data, bytes, obj, objmask);
      AddressWritten(m2, address, data, obj, objmask, base);
      FieldsOnlyMore(m0, m1, m2, [length], data, all, obj, objmask);
      FieldsOnlyMore(m0, m2, mem[..], all, address, all, obj, objmask);
      StringIsHeld(address, length, data, bytes, m0, m1, mem[..]);
    }

    lemma InAll(address: Arg, length: Arg, data: Arg)
      ensures length in [address, length, data] && data in [address, length, data] && address in [address, length, data]
      ensures forall x :: x in [length] ==> x in [address, length, data]
    {}

    lemma NoPointer(address: Arg, data: Arg, m: seq<bv8>)
      requires address.size == 0 && Room(address, obj, objmask, |m|)
      ensures m == WithAddress(m, address, data, obj, objmask, base)
    {
      AddressWritten(m, address, data, obj, objmask, base);
    }

    lemma StringIsHeld(address: Arg, length: Arg, data: Arg, bytes: seq<bv8>, m0: seq<bv8>, m1: seq<bv8>, m3: seq<bv8>)
      requires |m0| == |m1| == |m3| == mem.Length && |bytes| <= data.size
      requires Room(address, obj, objmask, mem.Length) && Room(length, obj, objmask, mem.Length)
      requires Room(data, obj, objmask, mem.Length)
      requires LengthStored(length, |bytes|, m0, m1)
      requires m3 == WithAddress(WithData(m1, data, bytes, obj, objmask), address, data, obj, objmask, base)
      ensures StringHeld(address, length, data, bytes, m0, m3)
    {
      hide LengthStored, Room, WithData, WithAddress;
      assert m3 == StringWritten(m1, address, data, bytes);
    }

    /** Let parse_int() fill in the length. */
    method StoreLength(length: Arg, n: nat) returns (ok: bool)
      requires Room(length, obj, objmask, mem.Length) && n < 0x1_0000_0000 && |args| < CTX_STACK_SIZE
      modifies this`args, mem
      ensures args == old(args)
      ensures ok <==> IntAccepted(Num(Some(n), Some(n)), length)
      ensures !ok ==> mem[..] == old(mem[..])
      ensures ok ==> LengthStored(length, n, old(mem[..]), mem[..])
      ensures FieldsOnly(old(mem[..]), mem[..], [length], obj, objmask)
    {
      hide MaskOk, FieldHolds, FieldsOnly, Part, InBounds, Storable;
      NothingChanged(mem[..], [length], obj, objmask);
      var pushed := PushArgs(length);
      ok := ParseInt(Num(Some(n), Some(n)));
      assert Tail(old(args) + [length], 1) == [length];
      if !ok {
        var popped := PopArgs();
      }
    }

    method StoreData(data: Arg, bytes: seq<bv8>)
      requires Room(data, obj, objmask, mem.Length) && |bytes| <= data.size
      modifies mem
      ensures mem[..] == WithData(old(mem[..]), data, bytes, obj, objmask)
    {
      hide MaskOk, SameBut, Part, Over;
      Put(obj + data.offset, bytes + seq(data.size - |bytes|, _ => 0));
      if objmask.Some? {
        Fill(objmask.value + data.offset, 0xff, |bytes|);
      }
    }

    method StorePointer(address: Arg, data: Arg)
      requires Room(address, obj, objmask, mem.Length)
      modifies mem
      ensures mem[..] == WithAddress(old(mem[..]), address, data, obj, objmask, base)
    {
      hide MaskOk, SameBut, Part, IntBytes, Over;
      Put(obj + address.offset, IntBytes(base + obj + data.offset, address.size, false));
      if objmask.Some? {
        Put(objmask.value + address.offset, IntBytes(base + objmask.value + data.offset, address.size, false));
      }
    }

    /** parse_action(): the type of the action a word names */
    method ParseAction(actions: seq<Token>, text: string) returns (ok: bool)
      requires Ready(1)
      modifies this`args, mem
      ensures ok <==> old(args) != [] && ActionNamed(actions, text)
      ensures ok ==> args == old(args)[..|old(args)| - 1]
      ensures !ok ==> args == old(args) && mem[..] == old(mem[..])
      ensures ok ==>
        var a, k := Last(old(args)), FirstName(Names(actions), text);
        Part(mem[..], obj + a.offset, a.size) == IntBytes(actions[k].priv.value.kind, a.size, false)
      ensures FieldsOnly(old(mem[..]), mem[..], Tail(old(args), 1), obj, objmask)
    {
      hide MaskOk, Part, SameBut, IntBytes, FieldsOnly;
      NothingChanged(mem[..], Tail(old(args), 1), obj, objmask);
      var top := PopArgs();
      if top.None? {
        return false;
      }
      var a := top.value;
      var i := FindName(Names(actions), text);
      FirstIs(Names(actions), text, i);
      if i == |actions| || actions[i].priv.None? {
        var pushed := PushArgs(a);
        assert args == old(args);
        return false;
      }
      Put(obj + a.offset, IntBytes(actions[i].priv.value.kind, a.size, false));
      OneWrite(a, old(mem[..]), mem[..], obj, objmask);
      assert Tail(old(args), 1) == [a];
      ok := true;
    }

    /** What the fields of the arguments hold after the callback of a value has taken a word. */
    ghost predicate ValueHeld(c: Call, w: Word, top: seq<Arg>, actions: seq<Token>, before: seq<bv8>, after: seq<bv8>)
      reads this`obj, this`objmask
      requires WordOk(w)
    {
      && |before| == |after| == mem.Length && ValueAccepted(c, w, top, actions)
      && (forall j :: 0 <= j < |top| ==> Room(top[j], obj, objmask, mem.Length))
      && match c
         case Prefix => PrefixHeld(top[0], w.num.unsigned.value, before, after)
         case Boolean => Stored(top[0], Taken(BooleanNum(w.text, w.rest), top[0]).value, before, after)
         case String => StringHeld(top[0], top[1], top[2], TextBytes(w.text), before, after)
         case Mac => AddressHeld(top[0], w.mac.value, after)
         case Ipv4 => if w.ip4.Some? then AddressHeld(top[0], w.ip4.value, after)
                      else Stored(top[0], Taken(w.num, top[0]).value, before, after)
         case Ipv6 => AddressHeld(top[0], w.ip6.value, after)
         case Action => TypeHeld(top[0], actions, w.text, after)
         case Int => Stored(top[0], Taken(w.num, top[0]).value, before, after)
         case Port => Stored(top[0], Taken(w.num, top[0]).value, before, after)
         case _ => false
    }

    ghost predicate TypeHeld(a: Arg, actions: seq<Token>, text: string, after: seq<bv8>)
      reads this`obj, this`objmask
      requires |after| == mem.Length && Room(a, obj, objmask, mem.Length) && ActionNamed(actions, text)
    {
      Part(after, obj + a.offset, a.size)
      == IntBytes(actions[FirstName(Names(actions), text)].priv.value.kind, a.size, false)
    }

    /** Numbers, prefix lengths and booleans */
    method ReadNumber(c: Call, w: Word, ghost actions: seq<Token>) returns (ok: bool)
      requires c in {Int, Port, Prefix, Boolean} && WordOk(w) && args != [] && Ready(1)
      modifies this`args, mem
      ensures ok <==> ValueAccepted(c, w, Tail(old(args), Pops(c)), actions)
      ensures ok ==> ValueHeld(c, w, Tail(old(args), Pops(c)), actions, old(mem[..]), mem[..])
      ensures ok ==> args == old(args)[..|old(args)| - Pops(c)]
      ensures !ok ==> args == old(args) && mem[..] == old(mem[..])
      ensures FieldsOnly(old(mem[..]), mem[..], Tail(old(args), Pops(c)), obj, objmask)
    {
      hide FieldsOnly, Room, IntAccepted, PrefixAccepted, TakesAddress, StringAccepted, ActionNamed, FieldHolds, Part,
        Stored, PrefixHeld, AddressHeld, StringHeld, BooleanNum, Taken;
      ghost var top := Tail(args, Pops(c));
      assert top[0] == args[|args| - Pops(c)];
      if c == Prefix {
        ok := ParsePrefix(w.num);
      } else if c == Boolean {
        ok := ParseBoolean(w.text, w.rest);
      } else {
        ok := ParseInt(w.num);
      }
    }

    method ReadAddress(c: Call, w: Word, ghost actions: seq<Token>) returns (ok: bool)
      requires c in {Mac, Ipv4, Ipv6} && WordOk(w) && args != [] && Ready(1)
      modifies this`args, mem
      ensures ok <==> ValueAccepted(c, w, Tail(old(args), Pops(c)), actions)
      ensures ok ==> ValueHeld(c, w, Tail(old(args), Pops(c)), actions, old(mem[..]), mem[..])
      ensures ok ==> args == old(args)[..|old(args)| - Pops(c)]
      ensures !ok ==> args == old(args) && mem[..] == old(mem[..])
      ensures FieldsOnly(old(mem[..]), mem[..], Tail(old(args), Pops(c)), obj, objmask)
    {
      hide FieldsOnly, Room, IntAccepted, PrefixAccepted, TakesAddress, StringAccepted, ActionNamed, FieldHolds, Part,
        Stored, PrefixHeld, AddressHeld, StringHeld, BooleanNum, Taken;
      ghost var top := Tail(args, Pops(c));
      assert top[0] == args[|args| - Pops(c)];
      if c == Mac {
        ok := ParseAddress(w.mac, 6);
      } else if c == Ipv4 {
        ok := ParseIpv4(w.ip4, w.num);
      } else {
        ok := ParseAddress(w.ip6, 16);
      }
    }

    method ReadText(c: Call, w: Word, ghost actions: seq<Token>) returns (ok: bool)
      requires c == String && WordOk(w) && 3 <= |args| && Ready(3) && args[|args| - 3].size <= 8
      modifies this`args, mem
      ensures ok <==> ValueAccepted(c, w, Tail(old(args), Pops(c)), actions)
      ensures ok ==> ValueHeld(c, w, Tail(old(args), Pops(c)), actions, old(mem[..]), mem[..])
      ensures ok ==> args == old(args)[..|old(args)| - Pops(c)]
      ensures !ok ==> args == old(args) && mem[..] == old(mem[..])
      ensures FieldsOnly(old(mem[..]), mem[..], Tail(old(args), Pops(c)), obj, objmask)
    {
      hide FieldsOnly, Room, IntAccepted, StringAccepted, ActionNamed, FieldHolds, Part, Stored, StringHeld;
      ghost var top := Tail(args, Pops(c));
      assert top[0] == args[|args| - Pops(c)];
      ok := ParseString(TextBytes(w.text));
    }

    method ReadAction(c: Call, w: Word, actions: seq<Token>) returns (ok: bool)
      requires c == Action && WordOk(w) && args != [] && Ready(1)
      modifies this`args, mem
      ensures ok <==> ValueAccepted(c, w, Tail(old(args), Pops(c)), actions)
      ensures ok ==> ValueHeld(c, w, Tail(old(args), Pops(c)), actions, old(mem[..]), mem[..])
      ensures ok ==> args == old(args)[..|old(args)| - Pops(c)]
      ensures !ok ==> args == old(args) && mem[..] == old(mem[..])
      ensures FieldsOnly(old(mem[..]), mem[..], Tail(old(args), Pops(c)), obj, objmask)
    {
      hide FieldsOnly, Room, IntAccepted, StringAccepted, ActionNamed, FieldHolds, Part, Stored, StringHeld;
      ghost var top := Tail(args, Pops(c));
      assert top[0] == args[|args| - Pops(c)];
      ok := ParseAction(actions, w.text);
    }

    /** parse_int() and its like, by the callback of the token */
    method ReadValue(c: Call, w: Word, actions: seq<Token>) returns (ok: bool)
      requires Pops(c) > 0 && WordOk(w) && Pops(c) <= |args| && Ready(Pops(c))
      requires c == String ==> args[|args| - 3].size <= 8
      modifies this`args, mem
      ensures ok <==> ValueAccepted(c, w, Tail(old(args), Pops(c)), actions)
      ensures ok ==> ValueHeld(c, w, Tail(old(args), Pops(c)), actions, old(mem[..]), mem[..])
      ensures ok ==> args == old(args)[..|old(args)| - Pops(c)]
      ensures !ok ==> args == old(args) && mem[..] == old(mem[..])
      ensures FieldsOnly(old(mem[..]), mem[..], Tail(old(args), Pops(c)), obj, objmask)
    {
      hide FieldsOnly, Room, ValueAccepted, ValueHeld, WordOk;
      if c == String {
        ok := ReadText(c, w, actions);
      } else if c == Mac || c == Ipv4 || c == Ipv6 {
        ok := ReadAddress(c, w, actions);
      } else if c == Action {
        ok := ReadAction(c, w, actions);
      } else {
        ok := ReadNumber(c, w, actions);
      }
    }
  }
}
