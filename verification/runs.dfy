// Values of decode strings put together from values of their parts.
module Runs {
  import opened Bits
  import opened Codes
  import opened Encodings

  // What a value comes to at some position: its bits, whether it comes past an
  // alignment, and whether its bitstreams are well placed.
  datatype Run = Run(bits: seq<bool>, meets: bool, placed: bool) {
    function Then(r: Run): Run {
      Run(bits + r.bits, meets || r.meets, placed && r.placed)
    }
  }

  function RunAt(g: Grammar, ops: seq<Op>, items: seq<Item>, p: nat): Run
    requires GrammarOk(g) && Fits(g, ops, items)
  {
    Run(Enc(g, ops, items, p), Meets(g, ops, items), Placed(g, ops, items, p))
  }

  function AllAt(g: Grammar, body: seq<Op>, elems: seq<Items>, p: nat): Run
    requires GrammarOk(g) && FitsAll(g, body, elems)
  {
    Run(EncAll(g, body, elems, p), MeetsAll(g, body, elems), PlacedAll(g, body, elems, p))
  }

  function LetterAt(g: Grammar, c: char, item: Item, p: nat): Run
    requires GrammarOk(g) && FitsLetter(g, c, item)
  {
    Run(EncLetter(g, c, item, p), MeetsLetter(g, c, item), PlacedLetter(g, c, item, p))
  }

  function GroupAt(g: Grammar, c: char, body: seq<Op>, item: Item, p: nat): Run
    requires GrammarOk(g) && FitsGroup(g, c, body, item)
  {
    Run(EncGroup(g, c, body, item, p), MeetsGroup(g, c, body, item), PlacedGroup(g, c, body, item, p))
  }

  predicate FitsFirst(g: Grammar, op: Op, item: Item)
    requires op.Letter? || op.Group?
  {
    match op
    case Letter(c) => FitsLetter(g, c, item)
    case Group(c, body) => FitsGroup(g, c, body, item)
  }

  // The first item of a string that starts with a letter or a group.
  function FirstAt(g: Grammar, op: Op, item: Item, p: nat): Run
    requires GrammarOk(g) && (op.Letter? || op.Group?) && FitsFirst(g, op, item)
  {
    match op
    case Letter(c) => LetterAt(g, c, item, p)
    case Group(c, body) => GroupAt(g, c, body, item, p)
  }

  const NOTHING: Run := Run([], false, true)

  function Padding(p: nat): Run { Run(Zeros(PadTo8(p)), true, true) }

  lemma ThenThen(a: Run, b: Run, c: Run)
    ensures a.Then(b).Then(c) == a.Then(b.Then(c))
  {
    ConcatAssoc(a.bits, b.bits, c.bits);
  }

  lemma ThenNothing(a: Run)
    ensures a.Then(NOTHING) == a && NOTHING.Then(a) == a
  {
    assert a.bits + [] == a.bits && [] + a.bits == a.bits;
  }

  lemma EmptyRun(g: Grammar, p: nat)
    requires GrammarOk(g)
    ensures Fits(g, [], []) && RunAt(g, [], [], p) == NOTHING
  {
  }

  lemma NothingRun(g: Grammar, x: seq<Item>, p: nat)
    requires GrammarOk(g) && Fits(g, [], x)
    ensures x == [] && RunAt(g, [], x, p) == NOTHING
  {
  }

  // One operation in front of a string that is known.
  lemma ItemThen(g: Grammar, op: Op, ops: seq<Op>, item: Item, items: seq<Item>, p: nat)
    requires GrammarOk(g) && (op.Letter? || op.Group?)
    ensures Fits(g, [op] + ops, [item] + items) <==> FitsFirst(g, op, item) && Fits(g, ops, items)
    ensures Fits(g, [op] + ops, [item] + items) ==>
              var r := FirstAt(g, op, item, p);
              RunAt(g, [op] + ops, [item] + items, p) == r.Then(RunAt(g, ops, items, p + |r.bits|))
  {
    hide FitsLetter, FitsGroup, EncLetter, EncGroup, MeetsLetter, MeetsGroup, PlacedLetter, PlacedGroup, GrammarOk;
    assert ([op] + ops)[1..] == ops && ([item] + items)[1..] == items;
  }

  lemma NeedsItem(g: Grammar, op: Op, ops: seq<Op>, items: seq<Item>)
    requires (op.Letter? || op.Group?) && Fits(g, [op] + ops, items)
    ensures items != []
  {
  }

  lemma FirstItem(g: Grammar, op: Op, more: seq<Op>, items: seq<Item>, p: nat)
    requires GrammarOk(g) && (op.Letter? || op.Group?) && Fits(g, [op] + more, items)
    ensures items != [] && FitsFirst(g, op, items[0]) && Fits(g, more, items[1..])
    ensures var f := FirstAt(g, op, items[0], p);
            RunAt(g, [op] + more, items, p) == f.Then(RunAt(g, more, items[1..], p + |f.bits|))
  {
    hide Fits, RunAt, FirstAt, FitsFirst, GrammarOk, Run.Then;
    NeedsItem(g, op, more, items);
    assert items == [items[0]] + items[1..];
    ItemThen(g, op, more, items[0], items[1..], p);
  }

  lemma MarkThen(g: Grammar, c: char, ops: seq<Op>, items: seq<Item>, p: nat)
    requires GrammarOk(g)
    ensures Fits(g, [Mark(c)] + ops, items) <==> Fits(g, ops, items)
    ensures Fits(g, ops, items) ==> RunAt(g, [Mark(c)] + ops, items, p) == RunAt(g, ops, items, p)
  {
    hide FitsLetter, FitsGroup, EncLetter, EncGroup, MeetsLetter, MeetsGroup, PlacedLetter, PlacedGroup, GrammarOk;
    assert ([Mark(c)] + ops)[1..] == ops;
  }

  lemma BarThen(g: Grammar, ops: seq<Op>, items: seq<Item>, p: nat)
    requires GrammarOk(g)
    ensures Fits(g, [Bar] + ops, items) <==> Fits(g, ops, items)
    ensures Fits(g, ops, items) ==>
              RunAt(g, [Bar] + ops, items, p) == Padding(p).Then(RunAt(g, ops, items, p + PadTo8(p)))
  {
    hide FitsLetter, FitsGroup, EncLetter, EncGroup, MeetsLetter, MeetsGroup, PlacedLetter, PlacedGroup, GrammarOk,
         Zeros, PadTo8;
    assert ([Bar] + ops)[1..] == ops;
  }

  lemma {:induction false} RunConcat(g: Grammar, a: seq<Op>, b: seq<Op>, x: seq<Item>, y: seq<Item>, p: nat)
    requires GrammarOk(g) && Fits(g, a, x) && Fits(g, b, y)
    ensures Fits(g, a + b, x + y)
    ensures var r := RunAt(g, a, x, p);
            RunAt(g, a + b, x + y, p) == r.Then(RunAt(g, b, y, p + |r.bits|))
    decreases |a|
  {
    hide Fits, RunAt, FitsFirst, FirstAt, GrammarOk, Padding, PadTo8, Run.Then;
    if a == [] {
      NothingRun(g, x, p);
      assert a + b == b && x + y == y;
      ThenNothing(RunAt(g, b, y, p));
    } else {
      var op, more := a[0], a[1..];
      assert a == [op] + more && a + b == [op] + (more + b);
      match op
      case Mark(c) =>
        MarkThen(g, c, more, x, p);
        RunConcat(g, more, b, x, y, p);
        MarkThen(g, c, more + b, x + y, p);
      case Bar =>
        var q := p + PadTo8(p);
        BarThen(g, more, x, p);
        RunConcat(g, more, b, x, y, q);
        BarThen(g, more + b, x + y, p);
        ThenLength(Padding(p), RunAt(g, more, x, q));
        PaddingLength(p);
        ThenThen(Padding(p), RunAt(g, more, x, q), RunAt(g, b, y, q + |RunAt(g, more, x, q).bits|));
      case _ =>
        NeedsItem(g, op, more, x);
        var item, items := x[0], x[1..];
        assert x == [item] + items && x + y == [item] + (items + y);
        ItemThen(g, op, more, item, items, p);
        var r := FirstAt(g, op, item, p);
        var q := p + |r.bits|;
        RunConcat(g, more, b, items, y, q);
        ItemThen(g, op, more + b, item, items + y, p);
        ThenLength(r, RunAt(g, more, items, q));
        ThenThen(r, RunAt(g, more, items, q), RunAt(g, b, y, q + |RunAt(g, more, items, q).bits|));
    }
  }

  lemma ThenLength(a: Run, b: Run)
    ensures |a.Then(b).bits| == |a.bits| + |b.bits|
  {
  }

  lemma PaddingLength(p: nat)
    ensures |Padding(p).bits| == PadTo8(p)
  {
  }

  // The string of a single letter or group.
  lemma RunOne(g: Grammar, op: Op, item: Item, p: nat)
    requires GrammarOk(g) && (op.Letter? || op.Group?) && FitsFirst(g, op, item)
    ensures Fits(g, [op], [item]) && RunAt(g, [op], [item], p) == FirstAt(g, op, item, p)
  {
    hide FitsFirst, FirstAt, GrammarOk, Fits, RunAt, Run.Then;
    var r := FirstAt(g, op, item, p);
    EmptyRun(g, p + |r.bits|);
    ItemThen(g, op, [], item, [], p);
    ThenNothing(r);
    assert [op] + [] == [op] && [item] + [] == [item];
  }

  lemma RunMark(g: Grammar, flag: bool, c: char, ops: seq<Op>, items: seq<Item>, p: nat)
    requires GrammarOk(g) && Fits(g, ops, items)
    ensures var all := (if flag then [Mark(c)] else []) + ops;
            Fits(g, all, items) && RunAt(g, all, items, p) == RunAt(g, ops, items, p)
  {
    hide GrammarOk, Fits, RunAt;
    MarkThen(g, c, ops, items, p);
    assert [] + ops == ops;
  }

  // An alignment in front, if the flag is set.
  function PaddingIf(flag: bool, p: nat): Run { if flag then Padding(p) else NOTHING }

  lemma RunBar(g: Grammar, flag: bool, ops: seq<Op>, items: seq<Item>, p: nat)
    requires GrammarOk(g) && Fits(g, ops, items)
    ensures var all, pad := (if flag then [Bar] else []) + ops, PaddingIf(flag, p);
            Fits(g, all, items) && RunAt(g, all, items, p) == pad.Then(RunAt(g, ops, items, p + |pad.bits|))
  {
    hide GrammarOk, Fits, RunAt, Run.Then, Padding, PadTo8;
    BarThen(g, ops, items, p);
    PaddingLength(p);
    assert [] + ops == ops;
    ThenNothing(RunAt(g, ops, items, p));
  }

  // One element alone is the element.
  lemma OneElem(g: Grammar, body: seq<Op>, elems: seq<Items>, p: nat)
    requires GrammarOk(g) && |elems| == 1 && FitsAll(g, body, elems)
    ensures Fits(g, body, elems[0].items) && AllAt(g, body, elems, p) == RunAt(g, body, elems[0].items, p)
  {
    hide Fits, Enc, Meets, Placed, GrammarOk;
    var b := Enc(g, body, elems[0].items, p);
    assert elems[1..] == [];
    assert EncAll(g, body, elems[1..], p + |b|) == [];
    assert !MeetsAll(g, body, elems[1..]) && PlacedAll(g, body, elems[1..], p + |b|);
    assert b + [] == b;
  }
}
