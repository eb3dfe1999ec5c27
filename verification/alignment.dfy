// How the bits of a value depend on where it starts.
module Alignment {
  import opened Bits
  import opened Codes
  import opened Encodings
  import opened Runs
  import opened Views

  // The bits are the same from positions that are as far from a byte boundary,
  // and from any positions if no alignment is met.
  lemma {:induction false} EncSame(g: Grammar, ops: seq<Op>, items: seq<Item>, p: nat, q: nat)
    requires GrammarOk(g) && Fits(g, ops, items)
    requires p % 8 == q % 8 || !Meets(g, ops, items)
    ensures Enc(g, ops, items, p) == Enc(g, ops, items, q)
    decreases items, |ops|, 2
  {
    hide Fits, Enc, Meets, Placed, FitsFirst, FirstAt, GrammarOk, Zeros, PadTo8;
    if ops == [] {
      NothingRun(g, items, p);
      NothingRun(g, items, q);
    } else {
      var op, more := ops[0], ops[1..];
      assert ops == [op] + more;
      match op
      case Mark(c) =>
        MarkThen(g, c, more, items, p);
        MarkThen(g, c, more, items, q);
        EncSame(g, more, items, p, q);
      case Bar =>
        BarThen(g, more, items, p);
        BarThen(g, more, items, q);
        SamePad(p, q);
        EncSame(g, more, items, p + PadTo8(p), q + PadTo8(q));
      case _ =>
        NeedsItem(g, op, more, items);
        assert items == [items[0]] + items[1..];
        ItemThen(g, op, more, items[0], items[1..], p);
        ItemThen(g, op, more, items[0], items[1..], q);
        FirstMeets(g, op, items[0], p, q);
        FirstSame(g, op, items[0], p, q);
        var b := FirstAt(g, op, items[0], p).bits;
        SameOn(p, q, |b|);
        EncSame(g, more, items[1..], p + |b|, q + |b|);
    }
  }

  // Whether an alignment is met does not depend on the position.
  lemma FirstMeets(g: Grammar, op: Op, item: Item, p: nat, q: nat)
    requires GrammarOk(g) && (op.Letter? || op.Group?) && FitsFirst(g, op, item)
    ensures FirstAt(g, op, item, p).meets == FirstAt(g, op, item, q).meets
  {
    hide EncLetter, EncGroup, MeetsLetter, MeetsGroup, PlacedLetter, PlacedGroup, FitsLetter, FitsGroup, GrammarOk;
  }

  lemma {:induction false} FirstSame(g: Grammar, op: Op, item: Item, p: nat, q: nat)
    requires GrammarOk(g) && (op.Letter? || op.Group?) && FitsFirst(g, op, item)
    requires p % 8 == q % 8 || !FirstAt(g, op, item, p).meets
    ensures FirstAt(g, op, item, p).bits == FirstAt(g, op, item, q).bits
    decreases item, 1
  {
    hide EncLetter, EncGroup, MeetsLetter, MeetsGroup, PlacedLetter, PlacedGroup, FitsLetter, FitsGroup, GrammarOk;
    match op
    case Letter(c) => LetterSame(g, c, item, p, q);
    case Group(c, body) => GroupSame(g, c, body, item, p, q);
  }

  lemma SamePad(p: nat, q: nat)
    requires p % 8 == q % 8
    ensures PadTo8(p) == PadTo8(q) && (p + PadTo8(p)) % 8 == (q + PadTo8(q)) % 8
  {
    PadIs(p);
    PadIs(q);
  }

  lemma SameOn(p: nat, q: nat, n: nat)
    ensures p % 8 == q % 8 <==> (p + n) % 8 == (q + n) % 8
  {
  }

  lemma {:induction false} LetterSame(g: Grammar, c: char, item: Item, p: nat, q: nat)
    requires GrammarOk(g) && FitsLetter(g, c, item)
    requires p % 8 == q % 8 || !MeetsLetter(g, c, item)
    ensures EncLetter(g, c, item, p) == EncLetter(g, c, item, q)
    decreases item, 0
  {
    hide IntBits, CodeBits, CharBits, Enc, Fits, Meets;
    if item.ISort? {
      var b := CodeBits(g[c], item.code);
      SameOn(p, q, |b|);
      EncSame(g, g[c].table[item.code], item.args, p + |b|, q + |b|);
    }
  }

  lemma {:induction false} GroupSame(g: Grammar, c: char, body: seq<Op>, item: Item, p: nat, q: nat)
    requires GrammarOk(g) && FitsGroup(g, c, body, item)
    requires p % 8 == q % 8 || !MeetsGroup(g, c, body, item)
    ensures EncGroup(g, c, body, item, p) == EncGroup(g, c, body, item, q)
    decreases item, 0
  {
    hide IntBits, ListHead, Enc, EncAll, Fits, FitsAll, Meets, MeetsAll, GrammarOk;
    match item
    case IList(elems) =>
      var b := ListHead(if c == '*' then |elems| else |elems| - 1);
      SameOn(p, q, |b|);
      AllSame(g, body, elems, p + |b|, q + |b|);
    case IOpt(present, some) =>
      if present {
        SameOn(p, q, 1);
        EncSame(g, body, some.items, p + 1, q + 1);
      }
    case ISub(_) =>
  }

  lemma {:induction false} AllSame(g: Grammar, body: seq<Op>, elems: seq<Items>, p: nat, q: nat)
    requires GrammarOk(g) && FitsAll(g, body, elems)
    requires p % 8 == q % 8 || !MeetsAll(g, body, elems)
    ensures EncAll(g, body, elems, p) == EncAll(g, body, elems, q)
    decreases elems
  {
    hide Enc, Fits, Meets, GrammarOk;
    if elems != [] {
      EncSame(g, body, elems[0].items, p, q);
      var b := Enc(g, body, elems[0].items, p);
      SameOn(p, q, |b|);
      AllSame(g, body, elems[1..], p + |b|, q + |b|);
    }
  }

  // Past an alignment it is forgotten where the value started: it ends as far
  // from a byte boundary wherever that was.
  lemma {:induction false} EncEnds(g: Grammar, ops: seq<Op>, items: seq<Item>, p: nat, q: nat)
    requires GrammarOk(g) && Fits(g, ops, items) && Meets(g, ops, items)
    ensures (p + |Enc(g, ops, items, p)|) % 8 == (q + |Enc(g, ops, items, q)|) % 8
    decreases items, |ops|, 2
  {
    hide Fits, Enc, Meets, Placed, FitsFirst, FirstAt, GrammarOk, Zeros, PadTo8;
    if ops == [] {
      NothingRun(g, items, p);
    } else {
      var op, more := ops[0], ops[1..];
      assert ops == [op] + more;
      match op
      case Mark(c) =>
        MarkThen(g, c, more, items, p);
        MarkThen(g, c, more, items, q);
        EncEnds(g, more, items, p, q);
      case Bar =>
        BarThen(g, more, items, p);
        BarThen(g, more, items, q);
        PadIs(p);
        PadIs(q);
        RestEnds(g, more, items, p + PadTo8(p), q + PadTo8(q));
      case _ =>
        NeedsItem(g, op, more, items);
        assert items == [items[0]] + items[1..];
        ItemThen(g, op, more, items[0], items[1..], p);
        ItemThen(g, op, more, items[0], items[1..], q);
        FirstMeets(g, op, items[0], p, q);
        var a, b := FirstAt(g, op, items[0], p).bits, FirstAt(g, op, items[0], q).bits;
        if FirstAt(g, op, items[0], p).meets {
          FirstEnds(g, op, items[0], p, q);
          RestEnds(g, more, items[1..], p + |a|, q + |b|);
        } else {
          EncEnds(g, more, items[1..], p + |a|, q + |b|);
        }
    }
  }

  lemma {:induction false} FirstEnds(g: Grammar, op: Op, item: Item, p: nat, q: nat)
    requires GrammarOk(g) && (op.Letter? || op.Group?) && FitsFirst(g, op, item) && FirstAt(g, op, item, p).meets
    ensures (p + |FirstAt(g, op, item, p).bits|) % 8 == (q + |FirstAt(g, op, item, q).bits|) % 8
    decreases item, 1
  {
    hide EncLetter, EncGroup, MeetsLetter, MeetsGroup, PlacedLetter, PlacedGroup, FitsLetter, FitsGroup, GrammarOk;
    match op
    case Letter(c) => LetterEnds(g, c, item, p, q);
    case Group(c, body) => GroupEnds(g, c, body, item, p, q);
  }

  // From positions as far from a byte boundary, what is left ends so too.
  lemma RestEnds(g: Grammar, ops: seq<Op>, items: seq<Item>, p: nat, q: nat)
    requires GrammarOk(g) && Fits(g, ops, items) && p % 8 == q % 8
    ensures (p + |Enc(g, ops, items, p)|) % 8 == (q + |Enc(g, ops, items, q)|) % 8
  {
    hide Enc, Fits, GrammarOk, Meets;
    EncSame(g, ops, items, p, q);
    SameOn(p, q, |Enc(g, ops, items, p)|);
  }

  lemma {:induction false} LetterEnds(g: Grammar, c: char, item: Item, p: nat, q: nat)
    requires GrammarOk(g) && FitsLetter(g, c, item) && MeetsLetter(g, c, item)
    ensures (p + |EncLetter(g, c, item, p)|) % 8 == (q + |EncLetter(g, c, item, q)|) % 8
    decreases item, 0
  {
    hide IntBits, CodeBits, CharBits, Enc, Fits, Meets;
    var b := CodeBits(g[c], item.code);
    EncEnds(g, g[c].table[item.code], item.args, p + |b|, q + |b|);
  }

  lemma {:induction false} GroupEnds(g: Grammar, c: char, body: seq<Op>, item: Item, p: nat, q: nat)
    requires GrammarOk(g) && FitsGroup(g, c, body, item) && MeetsGroup(g, c, body, item)
    ensures (p + |EncGroup(g, c, body, item, p)|) % 8 == (q + |EncGroup(g, c, body, item, q)|) % 8
    decreases item, 0
  {
    hide IntBits, ListHead, Enc, EncAll, Fits, FitsAll, Meets, MeetsAll, GrammarOk;
    match item
    case IList(elems) =>
      var b := ListHead(if c == '*' then |elems| else |elems| - 1);
      AllEnds(g, body, elems, p + |b|, q + |b|);
    case IOpt(_, some) => EncEnds(g, body, some.items, p + 1, q + 1);
  }

  lemma {:induction false} AllEnds(g: Grammar, body: seq<Op>, elems: seq<Items>, p: nat, q: nat)
    requires GrammarOk(g) && FitsAll(g, body, elems) && MeetsAll(g, body, elems)
    ensures (p + |EncAll(g, body, elems, p)|) % 8 == (q + |EncAll(g, body, elems, q)|) % 8
    decreases elems
  {
    hide Enc, Fits, Meets, GrammarOk;
    var a, b := Enc(g, body, elems[0].items, p), Enc(g, body, elems[0].items, q);
    if Meets(g, body, elems[0].items) {
      EncEnds(g, body, elems[0].items, p, q);
      AllSame(g, body, elems[1..], p + |a|, q + |b|);
      SameOn(p + |a|, q + |b|, |EncAll(g, body, elems[1..], p + |a|)|);
    } else {
      AllEnds(g, body, elems[1..], p + |a|, q + |b|);
    }
  }

  // The exact condition, for every value of every decode string.
  lemma EncExactly(g: Grammar, ops: seq<Op>, items: seq<Item>, p: nat, q: nat)
    requires GrammarOk(g) && Fits(g, ops, items)
    ensures Enc(g, ops, items, p) == Enc(g, ops, items, q) <==> p % 8 == q % 8 || !Meets(g, ops, items)
  {
    hide Enc, Fits, GrammarOk, Meets;
    if p % 8 == q % 8 || !Meets(g, ops, items) {
      EncSame(g, ops, items, p, q);
    } else {
      EncEnds(g, ops, items, p, q);
      SameOn(p, q, |Enc(g, ops, items, p)|);
    }
  }

  // A misplaced bitstream can still be read as the value it holds, by chance: an
  // integer, an alignment and an integer, where the padding bits pass for a
  // leading zero digit.  So being well placed is what makes the bits right, and
  // is enough for reading, but reading may succeed without it.
  lemma AlignedByChance(g: Grammar, data: seq<byte>, q: nat, a: nat, b: nat)
    requires GrammarOk(g) && a < 8 && q % 8 == 4
    requires Holds(data, q, IntBits(a) + (Zeros(4) + IntBits(b)))
    ensures var ops, items := [Letter('i'), Bar, Letter('i')], [INum(a), INum(b)];
            && Fits(g, ops, items) && Enc(g, ops, items, 0) == IntBits(a) + (Zeros(4) + IntBits(b))
            && Enc(g, ops, items, q) != Enc(g, ops, items, 0)
            && IntAt(data, q, 0) == (a, q + 4) && PadTo8(q + 4) == 0
            && IntAt(data, q + 4, 0) == (b, q + |Enc(g, ops, items, 0)|)
  {
    hide GrammarOk, Holds, IntAt, IntBits, Zeros, Fits, Enc, Meets, NumAt, PadTo8;
    ShortInt(a);
    PadIs(4);
    PadIs(q + 4);
    TwoNumbers(g, a, b, 0);
    TwoNumbers(g, a, b, q);
    EncExactly(g, [Letter('i'), Bar, Letter('i')], [INum(a), INum(b)], 0, q);
    ThreeParts(data, q, a, b);
  }

  lemma ShortInt(a: nat)
    requires a < 8
    ensures |IntBits(a)| == 4
  {
    assert [] + BitsOf(4, a % 8 + 8) == BitsOf(4, a % 8 + 8);
  }

  lemma ThreeParts(data: seq<byte>, q: nat, a: nat, b: nat)
    requires |IntBits(a)| == 4 && Holds(data, q, IntBits(a) + (Zeros(4) + IntBits(b)))
    ensures IntAt(data, q, 0) == (a, q + 4) && IntAt(data, q + 4, 0) == (b, q + 8 + |IntBits(b)|)
  {
    hide Holds, IntAt, IntBits, Zeros, NumAt;
    HoldsConcat(data, q, IntBits(a), Zeros(4) + IntBits(b));
    HoldsConcat(data, q + 4, Zeros(4), IntBits(b));
    IntInverts(data, q, a);
    HoldsZero(data, q + 4);
    IntUnfold(data, q + 4, 0);
    IntInverts(data, q + 8, b);
  }

  lemma HoldsZero(data: seq<byte>, p: nat)
    requires Holds(data, p, Zeros(4))
    ensures NumAt(data, p, 4) == 0
  {
    assert Pow2(4) == 16;
    HoldsNum(data, p, 4, 0);
  }

  lemma TwoNumbers(g: Grammar, a: nat, b: nat, p: nat)
    requires GrammarOk(g) && |IntBits(a)| == 4
    ensures var ops, items := [Letter('i'), Bar, Letter('i')], [INum(a), INum(b)];
            && Fits(g, ops, items) && Meets(g, ops, items)
            && Enc(g, ops, items, p) == IntBits(a) + (Zeros(PadTo8(p + 4)) + IntBits(b))
  {
    hide GrammarOk, IntBits, Fits, Enc, Meets, Zeros, PadTo8, Run.Then;
    var i := Letter('i');
    var q := p + 4;
    RunOne(g, i, INum(b), q + PadTo8(q));
    BarThen(g, [i], [INum(b)], q);
    ItemThen(g, i, [Bar] + [i], INum(a), [INum(b)], p);
    assert [i] + ([Bar] + [i]) == [i, Bar, i] && [INum(a)] + [INum(b)] == [INum(a), INum(b)];
    NumberAt(g, a, p);
    NumberAt(g, b, q + PadTo8(q));
    ThenIs(Run(IntBits(a), false, true), Padding(q), Run(IntBits(b), false, true));
  }

  lemma NumberAt(g: Grammar, n: nat, p: nat)
    requires GrammarOk(g)
    ensures FitsFirst(g, Letter('i'), INum(n)) && FirstAt(g, Letter('i'), INum(n), p) == Run(IntBits(n), false, true)
  {
  }

  lemma ThenIs(a: Run, b: Run, c: Run)
    ensures a.Then(b.Then(c)).bits == a.bits + (b.bits + c.bits)
    ensures a.Then(b.Then(c)).meets == (a.meets || b.meets || c.meets)
  {
  }
}
