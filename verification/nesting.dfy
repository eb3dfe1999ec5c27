// Writing the values of decode strings with the bit writer, nested bitstreams in
// streams of their own, and reading the file back.
module Nesting {
  import opened Bits
  import opened Codes
  import opened Files
  import opened Views
  import opened Bitstreams
  import Script
  import opened Session
  import opened DispFile
  import opened DispBasic
  import opened Encodings
  import opened Runs
  import opened DecodeStrings
  import opened TokenArgs

  // The writer can write the value: characters of at most 32 bits, bitstreams
  // whose length is a 32-bit number.
  predicate Writable(g: Grammar, ops: seq<Op>, items: seq<Item>)
    requires GrammarOk(g) && Fits(g, ops, items)
    decreases items, ops
  {
    if ops == [] then true
    else match ops[0]
      case Mark(_) => Writable(g, ops[1..], items)
      case Bar => Writable(g, ops[1..], items)
      case Letter(c) => WritableLetter(g, c, items[0]) && Writable(g, ops[1..], items[1..])
      case Group(c, body) => WritableGroup(g, c, body, items[0]) && Writable(g, ops[1..], items[1..])
  }

  predicate WritableLetter(g: Grammar, c: char, item: Item)
    requires GrammarOk(g) && FitsLetter(g, c, item)
    decreases item, 0
  {
    match item
    case INum(_) => true
    case IStr(size, _) => size <= 32
    case ISort(_, k, args) => Writable(g, g[c].table[k], args)
  }

  predicate WritableGroup(g: Grammar, c: char, body: seq<Op>, item: Item)
    requires GrammarOk(g) && FitsGroup(g, c, body, item)
    decreases item, 0
  {
    match item
    case IList(elems) => WritableAll(g, body, elems)
    case IOpt(present, some) => present ==> Writable(g, body, some.items)
    case ISub(sub) => |Enc(g, body, sub.items, 0)| < WORD && Writable(g, body, sub.items)
  }

  predicate WritableAll(g: Grammar, body: seq<Op>, elems: seq<Items>)
    requires GrammarOk(g) && FitsAll(g, body, elems)
    decreases elems
  {
    elems != [] ==> Writable(g, body, elems[0].items) && WritableAll(g, body, elems[1..])
  }

  // ----- writing

  // What writing a value keeps: the stream stays in a region of its own, taking
  // objects only from its old region, the free list or fresh memory, and what is
  // freed comes from there as well.
  twostate predicate Carried(lib: Library, new r: Bitstream, e: Entry, was: set<object>, new reg: set<object>)
    reads lib, lib.freeRepr, reg
  {
    && lib.Valid() && lib !in reg
    && Stands(r, e, reg) && reg !! lib.freeRepr
    && fresh(lib.freeRepr - old(lib.freeRepr) - was)
    && fresh(reg - was - old(lib.freeRepr))
  }

  function Longer(e: Entry, s: seq<bool>): Entry { e.(bits := e.bits + s) }

  lemma LongerTwice(e: Entry, a: seq<bool>, b: seq<bool>)
    ensures Longer(Longer(e, a), b) == Longer(e, a + b) && Longer(e, []) == e
  {
    ConcatAssoc(e.bits, a, b);
    assert e.bits + [] == e.bits;
  }

  method PutItem(lib: Library, s: Bitstream, item: Script.Item, ghost e: Entry, ghost was: set<object>)
    returns (r: Bitstream, ghost reg: set<object>)
    requires lib.Valid() && Stands(s, e, was) && was !! lib.freeRepr && lib !in was && item.Ok()
    modifies lib, lib.freeRepr, was
    ensures Carried(lib, r, Longer(e, Script.ItemBits(item, |e.bits|)), was, reg)
  {
    hide Stands, Script.ItemBits, Library.Valid;
    r, reg := WriteOne(lib, s, item, e, was);
  }

  // Write the characters of a string.
  method PutChars(lib: Library, s: Bitstream, size: nat, chars: seq<nat>, ghost e: Entry, ghost was: set<object>)
    returns (r: Bitstream, ghost reg: set<object>)
    requires lib.Valid() && Stands(s, e, was) && was !! lib.freeRepr && lib !in was
    requires size <= 32 && forall j :: 0 <= j < |chars| ==> chars[j] < Pow2(size)
    modifies lib, lib.freeRepr, was
    ensures Carried(lib, r, Longer(e, CharBits(size, chars)), was, reg)
    decreases |chars|
  {
    hide Stands, Library.Valid, Pow2, BitsOf;
    if chars == [] {
      LongerTwice(e, [], []);
      r, reg := s, was;
    } else {
      var r1;
      ghost var reg1;
      ghost var b := BitsOf(size, chars[0]);
      LongerTwice(e, b, CharBits(size, chars[1..]));
      r1, reg1 := PutItem(lib, s, Script.Long(size, chars[0]), e, was);
      r, reg := PutChars(lib, r1, size, chars[1..], Longer(e, b), reg1);
    }
  }

  // Write a value of a decode string.
  method PutValue(lib: Library, s: Bitstream, g: Grammar, ops: seq<Op>, items: seq<Item>,
                  ghost e: Entry, ghost was: set<object>)
    returns (r: Bitstream, ghost reg: set<object>)
    requires lib.Valid() && Stands(s, e, was) && was !! lib.freeRepr && lib !in was
    requires GrammarOk(g) && Fits(g, ops, items) && Writable(g, ops, items)
    modifies lib, lib.freeRepr, was
    ensures Carried(lib, r, Longer(e, Enc(g, ops, items, |e.bits|)), was, reg)
    decreases items, |ops|, 2
  {
    hide Stands, Library.Valid, GrammarOk, Fits, Enc, Meets, Placed, Writable, FirstAt, FitsFirst,
         Zeros, PadTo8, WritableFirst;
    ghost var p := |e.bits|;
    if ops == [] {
      NothingRun(g, items, p);
      LongerTwice(e, [], []);
      return s, was;
    }
    ghost var more := ops[1..];
    assert ops == [ops[0]] + more;
    WritableThen(g, ops[0], more, items);
    match ops[0] {
      case Mark(c) =>
        MarkThen(g, c, more, items, p);
        r, reg := PutValue(lib, s, g, ops[1..], items, e, was);
      case Bar =>
        BarThen(g, more, items, p);
        ghost var b := Zeros(PadTo8(p));
        LongerTwice(e, b, Enc(g, more, items, p + |b|));
        var r1;
        ghost var reg1;
        r1, reg1 := PutItem(lib, s, Script.Boundary, e, was);
        r, reg := PutValue(lib, r1, g, ops[1..], items, Longer(e, b), reg1);
      case _ =>
        FirstItem(g, ops[0], more, items, p);
        ghost var b := FirstAt(g, ops[0], items[0], p).bits;
        LongerTwice(e, b, Enc(g, more, items[1..], p + |b|));
        var r1;
        ghost var reg1;
        r1, reg1 := PutFirst(lib, s, g, ops[0], items[0], e, was);
        r, reg := PutValue(lib, r1, g, ops[1..], items[1..], Longer(e, b), reg1);
    }
  }

  predicate WritableFirst(g: Grammar, op: Op, item: Item)
    requires GrammarOk(g) && (op.Letter? || op.Group?) && FitsFirst(g, op, item)
  {
    match op
    case Letter(c) => WritableLetter(g, c, item)
    case Group(c, body) => WritableGroup(g, c, body, item)
  }

  lemma WritableThen(g: Grammar, op: Op, more: seq<Op>, items: seq<Item>)
    requires GrammarOk(g) && Fits(g, [op] + more, items) && Writable(g, [op] + more, items)
    ensures op.Mark? || op.Bar? ==> Fits(g, more, items) && Writable(g, more, items)
    ensures op.Letter? || op.Group? ==>
              && items != [] && FitsFirst(g, op, items[0]) && Fits(g, more, items[1..])
              && WritableFirst(g, op, items[0]) && Writable(g, more, items[1..])
  {
    hide FitsLetter, FitsGroup, WritableLetter, WritableGroup, GrammarOk;
    assert ([op] + more)[1..] == more;
  }

  method PutFirst(lib: Library, s: Bitstream, g: Grammar, op: Op, item: Item,
                  ghost e: Entry, ghost was: set<object>)
    returns (r: Bitstream, ghost reg: set<object>)
    requires lib.Valid() && Stands(s, e, was) && was !! lib.freeRepr && lib !in was
    requires GrammarOk(g) && (op.Letter? || op.Group?) && FitsFirst(g, op, item) && WritableFirst(g, op, item)
    modifies lib, lib.freeRepr, was
    ensures Carried(lib, r, Longer(e, FirstAt(g, op, item, |e.bits|).bits), was, reg)
    decreases item, 1
  {
    hide Stands, Library.Valid, GrammarOk, FitsLetter, FitsGroup, EncLetter, EncGroup, MeetsLetter, MeetsGroup,
         PlacedLetter, PlacedGroup, WritableLetter, WritableGroup;
    match op {
      case Letter(c) => r, reg := PutLetter(lib, s, g, c, item, e, was);
      case Group(c, body) => r, reg := PutGroup(lib, s, g, c, body, item, e, was);
    }
  }

  method PutLetter(lib: Library, s: Bitstream, g: Grammar, c: char, item: Item,
                   ghost e: Entry, ghost was: set<object>)
    returns (r: Bitstream, ghost reg: set<object>)
    requires lib.Valid() && Stands(s, e, was) && was !! lib.freeRepr && lib !in was
    requires GrammarOk(g) && FitsLetter(g, c, item) && WritableLetter(g, c, item)
    modifies lib, lib.freeRepr, was
    ensures Carried(lib, r, Longer(e, EncLetter(g, c, item, |e.bits|)), was, reg)
    decreases item, 0
  {
    hide Stands, Library.Valid, IntBits, CharBits, ExtnBits, BitsOf, Enc, Fits, Writable, Pow2;
    match item {
      case INum(n) => r, reg := PutItem(lib, s, Script.Int(n), e, was);
      case IStr(size, chars) =>
        ghost var a, b := IntBits(size), IntBits(|chars|);
        LongerTwice(e, a, b);
        LongerTwice(e, a + b, CharBits(size, chars));
        var r1, r2;
        ghost var reg1, reg2;
        r1, reg1 := PutItem(lib, s, Script.Int(size), e, was);
        r2, reg2 := PutItem(lib, r1, Script.Int(|chars|), Longer(e, a), reg1);
        r, reg := PutChars(lib, r2, size, chars, Longer(e, a + b), reg2);
      case ISort(_, k, args) =>
        ghost var code := CodeBits(g[c], k);
        LongerTwice(e, code, Enc(g, g[c].table[k], args, |e.bits| + |code|));
        var r1;
        ghost var reg1;
        var num := if g[c].extend then Script.Extn(g[c].bits, k) else Script.Fixed(g[c].bits, k);
        r1, reg1 := PutItem(lib, s, num, e, was);
        r, reg := PutValue(lib, r1, g, g[c].table[k], args, Longer(e, code), reg1);
    }
  }

  method PutGroup(lib: Library, s: Bitstream, g: Grammar, c: char, body: seq<Op>, item: Item,
                  ghost e: Entry, ghost was: set<object>)
    returns (r: Bitstream, ghost reg: set<object>)
    requires lib.Valid() && Stands(s, e, was) && was !! lib.freeRepr && lib !in was
    requires GrammarOk(g) && FitsGroup(g, c, body, item) && WritableGroup(g, c, body, item)
    modifies lib, lib.freeRepr, was
    ensures Carried(lib, r, Longer(e, EncGroup(g, c, body, item, |e.bits|)), was, reg)
    decreases item, 0
  {
    hide Stands, Library.Valid, IntBits, ListHead, BitsOf, Enc, EncAll, Fits, FitsAll, GrammarOk, Writable, WritableAll;
    match item {
      case IList(elems) =>
        var n := if c == '*' then |elems| else |elems| - 1;
        ghost var b := ListHead(n);
        LongerTwice(e, b, EncAll(g, body, elems, |e.bits| + |b|));
        var r1;
        ghost var reg1;
        r1, reg1 := PutHead(lib, s, n, e, was);
        r, reg := PutAll(lib, r1, g, body, elems, Longer(e, b), reg1);
      case IOpt(present, some) =>
        FlagBits(present);
        if present {
          LongerTwice(e, [true], Enc(g, body, some.items, |e.bits| + 1));
          var r1;
          ghost var reg1;
          r1, reg1 := PutItem(lib, s, Script.Fixed(1, 1), e, was);
          r, reg := PutValue(lib, r1, g, body, some.items, Longer(e, [true]), reg1);
        } else {
          r, reg := PutItem(lib, s, Script.Fixed(1, 0), e, was);
        }
      case ISub(sub) =>
        r, reg := PutNested(lib, s, g, body, sub.items, e, was);
    }
  }

  lemma FlagBits(b: bool)
    ensures BitsOf(1, if b then 1 else 0) == [b] && (if b then 1 else 0) < Pow2(1)
  {
    assert BitsOf(0, 0) == [] && [] + [b] == [b];
  }

  // A bit that is not set and a count.
  method PutHead(lib: Library, s: Bitstream, n: nat, ghost e: Entry, ghost was: set<object>)
    returns (r: Bitstream, ghost reg: set<object>)
    requires lib.Valid() && Stands(s, e, was) && was !! lib.freeRepr && lib !in was
    modifies lib, lib.freeRepr, was
    ensures Carried(lib, r, Longer(e, ListHead(n)), was, reg)
  {
    hide Stands, Library.Valid, IntBits, BitsOf, Pow2;
    FlagBits(false);
    LongerTwice(e, [false], IntBits(n));
    var r1;
    ghost var reg1;
    r1, reg1 := PutItem(lib, s, Script.Fixed(1, 0), e, was);
    r, reg := PutItem(lib, r1, Script.Int(n), Longer(e, [false]), reg1);
  }

  // A stream of its own for the value, then behind its length on s.
  method PutNested(lib: Library, s: Bitstream, g: Grammar, body: seq<Op>, items: seq<Item>,
                   ghost e: Entry, ghost was: set<object>)
    returns (r: Bitstream, ghost reg: set<object>)
    requires lib.Valid() && Stands(s, e, was) && was !! lib.freeRepr && lib !in was
    requires GrammarOk(g) && Fits(g, body, items) && Writable(g, body, items) && |Enc(g, body, items, 0)| < WORD
    modifies lib, lib.freeRepr, was
    ensures var b := Enc(g, body, items, 0);
            Carried(lib, r, Longer(e, IntBits(|b|) + b), was, reg)
    decreases items, |body|, 3
  {
    hide Stands, Library.Valid, IntBits, Enc, Fits, GrammarOk, Writable;
    assert allocated(was);
    var t, u;
    ghost var regT, regU;
    t, regT := StartOne(lib, false);
    assert Stands(s, e, was);
    u, regU := PutValue(lib, t, g, body, items, Entry([], false), regT);
    assert Stands(s, e, was);
    LongerNothing(Enc(g, body, items, 0));
    r, reg := JoinOne(lib, s, u, true, e, Entry(Enc(g, body, items, 0), false), was, regU);
  }

  lemma LongerNothing(s: seq<bool>)
    ensures Longer(Entry([], false), s) == Entry(s, false)
  {
    assert [] + s == s;
  }

  method PutAll(lib: Library, s: Bitstream, g: Grammar, body: seq<Op>, elems: seq<Items>,
                ghost e: Entry, ghost was: set<object>)
    returns (r: Bitstream, ghost reg: set<object>)
    requires lib.Valid() && Stands(s, e, was) && was !! lib.freeRepr && lib !in was
    requires GrammarOk(g) && FitsAll(g, body, elems) && WritableAll(g, body, elems)
    modifies lib, lib.freeRepr, was
    ensures Carried(lib, r, Longer(e, EncAll(g, body, elems, |e.bits|)), was, reg)
    decreases elems
  {
    hide Stands, Library.Valid, Enc, Fits, GrammarOk, Writable;
    if elems == [] {
      LongerTwice(e, [], []);
      r, reg := s, was;
    } else {
      ghost var b := Enc(g, body, elems[0].items, |e.bits|);
      LongerTwice(e, b, EncAll(g, body, elems[1..], |e.bits| + |b|));
      var r1;
      ghost var reg1;
      r1, reg1 := PutValue(lib, s, g, body, elems[0].items, e, was);
      r, reg := PutAll(lib, r1, g, body, elems[1..], Longer(e, b), reg1);
    }
  }

  // Write a value to a file of its own.
  method WriteFile(g: Grammar, ops: seq<Op>, items: seq<Item>) returns (data: seq<byte>)
    requires GrammarOk(g) && Fits(g, ops, items) && Writable(g, ops, items)
    ensures var s := Enc(g, ops, items, 0);
            BytesBits(data) == s + Zeros(PadTo8(|s|))
  {
    hide Stands, GrammarOk, Fits, Enc, Writable, Zeros, PadTo8, BytesBits;
    var lib := new Library();
    var s, r;
    ghost var reg, regR;
    s, reg := StartOne(lib, true);
    r, regR := PutValue(lib, s, g, ops, items, Entry([], true), reg);
    assert [] + Enc(g, ops, items, 0) == Enc(g, ops, items, 0);
    var f := EndOne(lib, r, Entry(Enc(g, ops, items, 0), true), regR);
    data := f.data;
  }

  // ----- reading back

  // At the start of such a file lie the value's bits.
  lemma WrittenFaces(inp: Input, s: seq<bool>)
    requires inp.Valid() && !inp.readError && inp.Posn() == 0
    requires BytesBits(inp.file.data) == s + Zeros(PadTo8(|s|))
    ensures Facing(inp, s)
  {
    hide Ahead, BytesBits, Zeros;
    var data := inp.file.data;
    assert |BytesBits(data)| == 8 * |data|;
    AheadInside(data, 0, |s|);
    assert (s + Zeros(PadTo8(|s|)))[..|s|] == s;
  }

  // Every value is read back from the file it was written to, the contents of its
  // bitstreams as well, which were put together in streams of their own.
  method WriteThenDecode(g: Grammar, ops: seq<Op>, items: seq<Item>) returns (out: seq<Item>)
    requires GrammarOk(g) && OpsOk(ops) && Fits(g, ops, items) && Writable(g, ops, items)
    requires Placed(g, ops, items, 0)
    ensures out == items
  {
    hide GrammarOk, OpsOk, Fits, Enc, Placed, Writable, Zeros, PadTo8, BytesBits, Facing, Text;
    var data := WriteFile(g, ops, items);
    var f := new File(data);
    var inp := new Input(f);
    WrittenFaces(inp, Enc(g, ops, items, 0));
    var str := Text(ops);
    assert str[0..] == "" + (str + "");
    out := DecodeStrings.Decode(inp, g, str, 0, false, ops, items, "");
  }

  // The arguments of a token in a bitstream of their own, and a value behind them,
  // written to a file and read: what follows is the same whether the reader
  // decodes the arguments or steps over them by the length that was written.
  method WriteThenStepOver(g: Grammar, d: Declaration, sorts: seq<Op>, args: seq<Item>,
                           ops: seq<Op>, items: seq<Item>)
    returns (out: seq<Item>, missing: bool, wrong: bool, after: seq<Item>)
    requires GrammarOk(g) && OpsOk(sorts) && OpsOk(ops) && Fits(g, sorts, args) && Fits(g, ops, items)
    requires Writable(g, sorts, args) && Writable(g, ops, items) && |Enc(g, sorts, args, 0)| < WORD
    requires d.Decodes() || d.Steps() || Enc(g, sorts, args, 0) == []
    requires d.WithSorts? ==> d.sorts == Text(sorts)
    requires var len := |Enc(g, sorts, args, 0)|;
             && (d.Decodes() ==> Readable(g, sorts, args, |IntBits(len)|))
             && Placed(g, ops, items, |IntBits(len)| + len)
    ensures after == items && !wrong
    ensures out == if d.Decodes() && Enc(g, sorts, args, 0) != [] then args else []
    ensures missing <==> Enc(g, sorts, args, 0) == [] && d.WithSorts? && d.sorts != ""
  {
    hide GrammarOk, OpsOk, Fits, Enc, Placed, Writable, Zeros, PadTo8, BytesBits, Holds, Text, IntBits, Readable,
         ByteAt, Remains;
    ghost var b := Enc(g, sorts, args, 0);
    ghost var n := IntBits(|b|);
    ghost var tail := Enc(g, ops, items, |n + b|);
    ArgsFirst(g, sorts, args, ops, items);
    var data := WriteFile(g, [Group('@', sorts)] + ops, [ISub(Items(args))] + items);
    var f := new File(data);
    var inp := new Input(f);
    WrittenFaces(inp, (n + b) + tail);
    FacingNext(inp, 0, n + b, tail);
    FacingNext(inp, 0, n, b);
    out, missing, wrong := ReadArgs(inp, g, d, sorts, args, |b|);
    FacingNext(inp, 0, n + b, tail);
    var str := Text(ops);
    assert str[0..] == "" + (str + "");
    after := DecodeStrings.Decode(inp, g, str, 0, false, ops, items, "");
  }

  // A bitstream in front of a value.
  lemma ArgsFirst(g: Grammar, sorts: seq<Op>, args: seq<Item>, ops: seq<Op>, items: seq<Item>)
    requires GrammarOk(g) && Fits(g, sorts, args) && Fits(g, ops, items)
    requires Writable(g, sorts, args) && Writable(g, ops, items) && |Enc(g, sorts, args, 0)| < WORD
    ensures var all, both, b := [Group('@', sorts)] + ops, [ISub(Items(args))] + items, Enc(g, sorts, args, 0);
            && Fits(g, all, both) && Writable(g, all, both)
            && Enc(g, all, both, 0) == (IntBits(|b|) + b) + Enc(g, ops, items, |IntBits(|b|) + b|)
  {
    hide GrammarOk, IntBits;
    assert ([Group('@', sorts)] + ops)[1..] == ops;
    assert ([ISub(Items(args))] + items)[1..] == items;
  }
}
