// The encodings of the values of a sort are self-delimiting: none is a prefix of
// another, so a bit string starts with at most one value.
module SelfDelimiting {
  import opened Bits
  import opened Codes
  import opened Encodings
  import opened Runs
  import opened TdfOutput
  import opened Compile
  import opened Values
  import opened Meaning

  lemma Parts<T>(a: seq<T>, b: seq<T>, s: seq<T>, t: seq<T>)
    requires a + s == b + t
    ensures a <= b || b <= a
    ensures |a| == |b| ==> a == b && s == t
  {
    if |a| <= |b| {
      assert a == (a + s)[..|a|] == (b + t)[..|a|] == b[..|a|];
    } else {
      assert b == (b + t)[..|b|] == (a + s)[..|b|] == a[..|b|];
    }
    if |a| == |b| {
      assert s == (a + s)[|a|..] && t == (b + t)[|b|..];
    }
  }

  lemma IntOnce(n: nat, m: nat, s: seq<bool>, t: seq<bool>)
    requires IntBits(n) + s == IntBits(m) + t
    ensures n == m && s == t
  {
    hide IntBits;
    Parts(IntBits(n), IntBits(m), s, t);
    if IntBits(n) <= IntBits(m) { IntPrefixFree(n, m); } else { IntPrefixFree(m, n); }
  }

  lemma FixedOnce(k: nat, n: nat, m: nat, s: seq<bool>, t: seq<bool>)
    requires n < Pow2(k) && m < Pow2(k) && BitsOf(k, n) + s == BitsOf(k, m) + t
    ensures n == m && s == t
  {
    hide BitsOf, Pow2;
    Parts(BitsOf(k, n), BitsOf(k, m), s, t);
    ValueOfBitsOf(k, n);
    ValueOfBitsOf(k, m);
  }

  lemma CodeOnce(info: SortInfo, n: nat, m: nat, s: seq<bool>, t: seq<bool>)
    requires info.extend ==> info.bits >= 1 && n >= 1 && m >= 1
    requires !info.extend ==> n < Pow2(info.bits) && m < Pow2(info.bits)
    requires CodeBits(info, n) + s == CodeBits(info, m) + t
    ensures n == m && s == t
  {
    hide ExtnBits, BitsOf, Pow2;
    if info.extend {
      var a, b := ExtnBits(info.bits, n), ExtnBits(info.bits, m);
      Parts(a, b, s, t);
      if a <= b { ExtnPrefixFree(info.bits, n, m); } else { ExtnPrefixFree(info.bits, m, n); }
    } else {
      FixedOnce(info.bits, n, m, s, t);
    }
  }

  lemma {:induction false} CharsOnce(size: nat, a: seq<nat>, b: seq<nat>, s: seq<bool>, t: seq<bool>)
    requires |a| == |b|
    requires forall j :: 0 <= j < |a| ==> a[j] < Pow2(size) && b[j] < Pow2(size)
    requires CharBits(size, a) + s == CharBits(size, b) + t
    ensures a == b && s == t
    decreases |a|
  {
    hide BitsOf, Pow2;
    if a == [] {
      assert [] + s == s && [] + t == t;
    } else {
      ConcatAssoc(BitsOf(size, a[0]), CharBits(size, a[1..]), s);
      ConcatAssoc(BitsOf(size, b[0]), CharBits(size, b[1..]), t);
      FixedOnce(size, a[0], b[0], CharBits(size, a[1..]) + s, CharBits(size, b[1..]) + t);
      CharsOnce(size, a[1..], b[1..], s, t);
    }
  }

  // Two values of one decode string with the same bits are the same.
  lemma {:induction false} EncOnce(g: Grammar, ops: seq<Op>, x: seq<Item>, y: seq<Item>, p: nat,
                                 s: seq<bool>, t: seq<bool>)
    requires GrammarOk(g) && Fits(g, ops, x) && Fits(g, ops, y)
    requires Enc(g, ops, x, p) + s == Enc(g, ops, y, p) + t
    ensures x == y && s == t
    decreases x, |ops|, 2
  {
    hide Fits, Enc, Meets, Placed, FitsFirst, FirstAt, GrammarOk, Zeros, PadTo8;
    if ops == [] {
      NothingRun(g, x, p);
      NothingRun(g, y, p);
      assert [] + s == s && [] + t == t;
    } else {
      var op, more := ops[0], ops[1..];
      assert ops == [op] + more;
      match op
      case Mark(c) =>
        MarkThen(g, c, more, x, p);
        MarkThen(g, c, more, y, p);
        EncOnce(g, more, x, y, p, s, t);
      case Bar =>
        var pad := Zeros(PadTo8(p));
        var q := p + PadTo8(p);
        BarThen(g, more, x, p);
        BarThen(g, more, y, p);
        ConcatAssoc(pad, Enc(g, more, x, q), s);
        ConcatAssoc(pad, Enc(g, more, y, q), t);
        Parts(pad, pad, Enc(g, more, x, q) + s, Enc(g, more, y, q) + t);
        EncOnce(g, more, x, y, q, s, t);
      case _ =>
        NeedsItem(g, op, more, x);
        NeedsItem(g, op, more, y);
        assert x == [x[0]] + x[1..] && y == [y[0]] + y[1..];
        ItemThen(g, op, more, x[0], x[1..], p);
        ItemThen(g, op, more, y[0], y[1..], p);
        var e, f := FirstAt(g, op, x[0], p).bits, FirstAt(g, op, y[0], p).bits;
        ConcatAssoc(e, Enc(g, more, x[1..], p + |e|), s);
        ConcatAssoc(f, Enc(g, more, y[1..], p + |f|), t);
        ItemOnce(g, op, x[0], y[0], p, Enc(g, more, x[1..], p + |e|) + s, Enc(g, more, y[1..], p + |f|) + t);
        EncOnce(g, more, x[1..], y[1..], p + |e|, s, t);
    }
  }

  lemma {:induction false} ItemOnce(g: Grammar, op: Op, x: Item, y: Item, p: nat, s: seq<bool>, t: seq<bool>)
    requires GrammarOk(g) && (op.Letter? || op.Group?) && FitsFirst(g, op, x) && FitsFirst(g, op, y)
    requires FirstAt(g, op, x, p).bits + s == FirstAt(g, op, y, p).bits + t
    ensures x == y && s == t
    decreases x, 1
  {
    hide FitsLetter, FitsGroup, EncLetter, EncGroup, MeetsLetter, MeetsGroup, PlacedLetter, PlacedGroup, GrammarOk;
    match op
    case Letter(c) => LetterOnce(g, c, x, y, p, s, t);
    case Group(c, body) => GroupOnce(g, c, body, x, y, p, s, t);
  }

  lemma {:induction false} LetterOnce(g: Grammar, c: char, x: Item, y: Item, p: nat, s: seq<bool>, t: seq<bool>)
    requires GrammarOk(g) && FitsLetter(g, c, x) && FitsLetter(g, c, y)
    requires EncLetter(g, c, x, p) + s == EncLetter(g, c, y, p) + t
    ensures x == y && s == t
    decreases x, 0
  {
    hide IntBits, CharBits, CodeBits, Enc, Fits, Pow2;
    match x
    case INum(n) => IntOnce(n, y.n, s, t);
    case IStr(size, chars) =>
      var a, b := CharBits(size, chars), CharBits(y.size, y.chars);
      ConcatThree(IntBits(size), IntBits(|chars|), a, s);
      ConcatThree(IntBits(y.size), IntBits(|y.chars|), b, t);
      IntOnce(size, y.size, IntBits(|chars|) + (a + s), IntBits(|y.chars|) + (b + t));
      IntOnce(|chars|, |y.chars|, a + s, b + t);
      CharsOnce(size, chars, y.chars, s, t);
    case ISort(_, k, args) =>
      var info, a, b := g[c], CodeBits(g[c], k), CodeBits(g[c], y.code);
      var e, f := Enc(g, info.table[k], args, p + |a|), Enc(g, info.table[y.code], y.args, p + |b|);
      ConcatAssoc(a, e, s);
      ConcatAssoc(b, f, t);
      CodeOnce(info, k, y.code, e + s, f + t);
      EncOnce(g, info.table[k], args, y.args, p + |a|, s, t);
  }

  lemma ConcatThree(a: seq<bool>, b: seq<bool>, c: seq<bool>, s: seq<bool>)
    ensures a + b + c + s == a + (b + (c + s))
  {
  }

  lemma {:induction false} GroupOnce(g: Grammar, c: char, body: seq<Op>, x: Item, y: Item, p: nat,
                                   s: seq<bool>, t: seq<bool>)
    requires GrammarOk(g) && FitsGroup(g, c, body, x) && FitsGroup(g, c, body, y)
    requires EncGroup(g, c, body, x, p) + s == EncGroup(g, c, body, y, p) + t
    ensures x == y && s == t
    decreases x, 0
  {
    hide IntBits, Enc, EncAll, Fits, FitsAll, GrammarOk;
    match x
    case IList(elems) =>
      var n, m := if c == '*' then |elems| else |elems| - 1, if c == '*' then |y.elems| else |y.elems| - 1;
      var a, b := ListHead(n), ListHead(m);
      var e, f := EncAll(g, body, elems, p + |a|), EncAll(g, body, y.elems, p + |b|);
      ConcatThree([false], IntBits(n), e, s);
      ConcatThree([false], IntBits(m), f, t);
      Parts([false], [false], IntBits(n) + (e + s), IntBits(m) + (f + t));
      IntOnce(n, m, e + s, f + t);
      AllOnce(g, body, elems, y.elems, p + |a|, s, t);
    case IOpt(present, some) =>
      var e := if present then Enc(g, body, some.items, p + 1) else [];
      var f := if y.present then Enc(g, body, y.some.items, p + 1) else [];
      assert [present] + [] == [present] && [y.present] + [] == [y.present];
      ConcatAssoc([present], e, s);
      ConcatAssoc([y.present], f, t);
      Parts([present], [y.present], e + s, f + t);
      assert [present][0] == [y.present][0];
      if present {
        EncOnce(g, body, some.items, y.some.items, p + 1, s, t);
        assert some == Items(some.items) && y.some == Items(y.some.items);
      } else {
        assert [] + s == s && [] + t == t;
        assert some == Items(some.items) && y.some == Items(y.some.items);
      }
    case ISub(sub) =>
      var e, f := Enc(g, body, sub.items, 0), Enc(g, body, y.sub.items, 0);
      ConcatAssoc(IntBits(|e|), e, s);
      ConcatAssoc(IntBits(|f|), f, t);
      IntOnce(|e|, |f|, e + s, f + t);
      Parts(e, f, s, t);
      assert e + [] == f + [];
      EncOnce(g, body, sub.items, y.sub.items, 0, [], []);
      assert sub == Items(sub.items) && y.sub == Items(y.sub.items);
  }

  lemma {:induction false} AllOnce(g: Grammar, body: seq<Op>, x: seq<Items>, y: seq<Items>, p: nat,
                                 s: seq<bool>, t: seq<bool>)
    requires GrammarOk(g) && FitsAll(g, body, x) && FitsAll(g, body, y) && |x| == |y|
    requires EncAll(g, body, x, p) + s == EncAll(g, body, y, p) + t
    ensures x == y && s == t
    decreases x
  {
    hide Enc, Fits, GrammarOk;
    if x == [] {
      assert [] + s == s && [] + t == t;
    } else {
      var a, b := Enc(g, body, x[0].items, p), Enc(g, body, y[0].items, p);
      var e, f := EncAll(g, body, x[1..], p + |a|), EncAll(g, body, y[1..], p + |b|);
      ConcatAssoc(a, e, s);
      ConcatAssoc(b, f, t);
      EncOnce(g, body, x[0].items, y[0].items, p, e + s, f + t);
      AllOnce(g, body, x[1..], y[1..], p + |a|, s, t);
      assert x[0] == Items(x[0].items) && y[0] == Items(y[0].items);
      assert x == [x[0]] + x[1..] && y == [y[0]] + y[1..];
    }
  }

  // The same for the values of a sort.
  lemma ValueOnce(spec: Spec, sort: Sort, v: Val, w: Val, p: nat, s: seq<bool>, t: seq<bool>)
    requires SpecOk(spec) && Decodable(sort) && Typed(spec, sort, v) && Typed(spec, sort, w)
    requires EncVal(spec, sort, v, p) + s == EncVal(spec, sort, w, p) + t
    ensures v == w && s == t
  {
    hide SpecOk, Decodable, Typed, EncVal, MeetsVal, PlacedVal, GrammarOk, GrammarOf, Fits, Enc, Meets, Placed, Flat,
         SortOps;
    Compiles(spec, sort, v, false, p);
    Compiles(spec, sort, w, false, p);
    EncOnce(GrammarOf(spec), SortOps(sort, false), Flat(spec, sort, v), Flat(spec, sort, w), p, s, t);
    FlatDetermines(spec, sort, v, w, [], []);
  }
}
