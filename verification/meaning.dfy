// The compiled decode string of a sort reads exactly the sort's values.
module Meaning {
  import opened Bits
  import opened Codes
  import opened Files
  import opened Views
  import opened DispFile
  import opened Encodings
  import opened Runs
  import opened DecodeStrings
  import opened TdfOutput
  import opened Compile
  import opened Values

  // ----- the compiled grammar

  function GrammarOf(spec: Spec): Grammar
    requires SpecOk(spec)
  {
    map c | c in spec ::
      SortInfo(spec[c].bits, spec[c].extend, map k | k in spec[c].conses :: ConsOps(spec[c].conses[k], false))
  }

  lemma {:induction false} SortOpsOk(s: Sort, intro: bool)
    requires Decodable(s)
    ensures OpsOk(SortOps(s, intro))
    decreases s
  {
    match s.info
    case Builtin =>
    case Basic =>
    case Single(cons) => ConsOpsOk(cons, intro);
    case Compound(arg) => SortOpsOk(arg, intro);
  }

  lemma {:induction false} ConsOpsOk(c: Construct, intro: bool)
    requires DecodableCons(c)
    ensures OpsOk(ConsOps(c, intro))
    decreases c, |c.pars| + 1
  {
    hide DecodableCons;
    ParamsOpsOk(c, 0, intro);
    BraceOpsOk(Breaks(c, |c.pars|));
  }

  lemma {:induction false} BraceOpsOk(n: nat)
    ensures OpsOk(BraceOps(n))
  {
    if n > 0 { BraceOpsOk(n - 1); }
  }

  lemma {:induction false} ParamsOpsOk(c: Construct, i: nat, intro: bool)
    requires DecodableCons(c) && i <= |c.pars|
    ensures OpsOk(ParamsOps(c, i, intro))
    decreases c, |c.pars| - i, 1
  {
    hide DecodableCons, ParamOps;
    if i < |c.pars| {
      var intro' := intro || c.pars[i].intro;
      ParamOpsOk(c, i, intro');
      ParamsOpsOk(c, i + 1, intro');
    }
  }

  lemma {:induction false} ParamOpsOk(c: Construct, i: nat, intro: bool)
    requires DecodableCons(c) && i < |c.pars|
    ensures OpsOk(ParamOps(c, i, intro))
    decreases c, |c.pars| - i, 0
  {
    hide SortOps;
    if IsStream(c, i) { SortOpsOk(c.res, intro); } else { SortOpsOk(c.pars[i].sort, intro); }
  }

  lemma GrammarOfOk(spec: Spec)
    requires SpecOk(spec)
    ensures GrammarOk(GrammarOf(spec))
  {
    hide DecodableCons, OpsOk, ConsOps, Pow2;
    var g := GrammarOf(spec);
    forall c, k | c in g && k in g[c].table ensures OpsOk(g[c].table[k]) {
      ConsOpsOk(spec[c].conses[k], false);
    }
  }

  lemma SpecHas(spec: Spec, c: char, k: nat)
    requires SpecOk(spec) && c in spec && k in spec[c].conses
    ensures DecodableCons(spec[c].conses[k]) && (spec[c].extend ==> spec[c].bits >= 1)
    ensures var g := GrammarOf(spec);
            && c in g && k in g[c].table && g[c].table[k] == ConsOps(spec[c].conses[k], false)
            && g[c].bits == spec[c].bits && g[c].extend == spec[c].extend
  {
    hide DecodableCons, ConsOps, Pow2;
  }

  // ----- the compiler preserves meaning

  // The string compiled from a sort reads the sort's values: each from its own
  // encoding, with the alignments it comes past.
  lemma {:induction false} Compiles(spec: Spec, s: Sort, v: Val, intro: bool, p: nat)
    requires SpecOk(spec) && Decodable(s) && Typed(spec, s, v)
    ensures GrammarOk(GrammarOf(spec))
    ensures Fits(GrammarOf(spec), SortOps(s, intro), Flat(spec, s, v))
    ensures RunAt(GrammarOf(spec), SortOps(s, intro), Flat(spec, s, v), p) == ValAt(spec, s, v, p)
    decreases v, 2
  {
    hide SpecOk, GrammarOk, RunAt, LetterAt, ConsOps, Fits, FitsLetter, FlatAll, FlatPars, EncPars, EncVals, MeetsPars,
         MeetsVals, PlacedPars, PlacedVals, GrammarOf, TypedAll, DecodableCons, IntBits, CharBits, ExtnBits, BitsOf;
    GrammarOfOk(spec);
    match s.info
    case Builtin => CompilesBuiltin(spec, s, v, intro, p);
    case Basic => CompilesBasic(spec, s, v, intro, p);
    case Single(cons) => CompilesCons(spec, cons, v.args, intro, p);
    case Compound(arg) => CompilesGroup(spec, s, v, intro, p);
  }

  lemma CompilesBuiltin(spec: Spec, s: Sort, v: Val, intro: bool, p: nat)
    requires SpecOk(spec) && Decodable(s) && Typed(spec, s, v) && s.info.Builtin?
    ensures GrammarOk(GrammarOf(spec))
    ensures Fits(GrammarOf(spec), SortOps(s, intro), Flat(spec, s, v))
    ensures RunAt(GrammarOf(spec), SortOps(s, intro), Flat(spec, s, v), p) == ValAt(spec, s, v, p)
  {
    hide SpecOk, GrammarOk, GrammarOf, RunAt, SortOps, Fits, IntBits, CharBits, Pow2;
    GrammarOfOk(spec);
    RunLetter(GrammarOf(spec), s, intro, Flat(spec, s, v)[0], p);
  }

  lemma {:induction false} CompilesBasic(spec: Spec, s: Sort, v: Val, intro: bool, p: nat)
    requires SpecOk(spec) && Decodable(s) && Typed(spec, s, v) && s.info.Basic?
    ensures GrammarOk(GrammarOf(spec))
    ensures Fits(GrammarOf(spec), SortOps(s, intro), Flat(spec, s, v))
    ensures RunAt(GrammarOf(spec), SortOps(s, intro), Flat(spec, s, v), p) == ValAt(spec, s, v, p)
    decreases v, 0
  {
    hide SpecOk, GrammarOk, IntBits, CharBits, ExtnBits, BitsOf, SortOps, ConsOps, Fits, Enc, Meets, Placed,
         FlatPars, EncPars, MeetsPars, PlacedPars, GrammarOf, TypedPars;
    GrammarOfOk(spec);
    var g, c := GrammarOf(spec), s.code as char;
    SpecHas(spec, c, v.k);
    var code := CodeBits(g[c], v.k);
    CompilesCons(spec, spec[c].conses[v.k], v.args, false, p + |code|);
    RunLetter(g, s, intro, Flat(spec, s, v)[0], p);
  }

  lemma {:induction false} CompilesGroup(spec: Spec, s: Sort, v: Val, intro: bool, p: nat)
    requires SpecOk(spec) && Decodable(s) && Typed(spec, s, v) && s.info.Compound?
    ensures GrammarOk(GrammarOf(spec))
    ensures Fits(GrammarOf(spec), SortOps(s, intro), Flat(spec, s, v))
    ensures RunAt(GrammarOf(spec), SortOps(s, intro), Flat(spec, s, v), p) == ValAt(spec, s, v, p)
    decreases v, 0
  {
    hide SpecOk, GrammarOk, IntBits, ListHead, Fits, Enc, Meets, Placed, GrammarOf,
         FitsAll, EncAll, MeetsAll, PlacedAll, FlatAll, TypedAll, EncVals, MeetsVals, PlacedVals;
    GrammarOfOk(spec);
    var g, arg := GrammarOf(spec), s.info.arg;
    var c, body := s.code as char, SortOps(arg, intro);
    if v.Vals? {
      CompilesAll(spec, arg, v.elems, intro, p + |ListHead(|v.elems|)|);
    } else if v.some != [] {
      CompilesAll(spec, arg, v.some, intro, p + 1);
      OneElem(g, body, FlatAll(spec, arg, v.some), p + 1);
    } else {
      EmptyVals(spec, arg, p + 1);
      assert [false] + [] == [false];
    }
    RunOne(g, Group(c, body), Flat(spec, s, v)[0], p);
  }

  lemma EmptyVals(spec: Spec, s: Sort, p: nat)
    requires SpecOk(spec)
    ensures TypedAll(spec, s, []) && ValsAt(spec, s, [], p) == NOTHING
  {
  }

  // The string of a single letter, with the mark of an edge if there is one.
  lemma RunLetter(g: Grammar, s: Sort, intro: bool, item: Item, p: nat)
    requires GrammarOk(g) && Decodable(s) && (s.info.Builtin? || s.info.Basic?) && FitsLetter(g, s.code as char, item)
    ensures Fits(g, SortOps(s, intro), [item])
    ensures RunAt(g, SortOps(s, intro), [item], p) == LetterAt(g, s.code as char, item, p)
  {
    hide FitsLetter, LetterAt, GrammarOk, Fits, RunAt, Run.Then;
    var c := s.code as char;
    var r := LetterAt(g, c, item, p);
    RunOne(g, Letter(c), item, p);
    EmptyRun(g, p + |r.bits|);
    MarkThen(g, '&', [], [], p + |r.bits|);
    ItemThen(g, Letter(c), [Mark('&')], item, [], p);
    ThenNothing(r);
    assert [Mark('&')] + [] == [Mark('&')] && [item] + [] == [item] && [Letter(c)] + [] == [Letter(c)];
  }

  lemma {:induction false} CompilesAll(spec: Spec, s: Sort, vs: seq<Val>, intro: bool, p: nat)
    requires SpecOk(spec) && Decodable(s) && TypedAll(spec, s, vs)
    ensures GrammarOk(GrammarOf(spec))
    ensures FitsAll(GrammarOf(spec), SortOps(s, intro), FlatAll(spec, s, vs))
    ensures AllAt(GrammarOf(spec), SortOps(s, intro), FlatAll(spec, s, vs), p) == ValsAt(spec, s, vs, p)
    decreases vs
  {
    hide SpecOk, GrammarOk, SortOps, Flat, Typed, EncVal, MeetsVal, PlacedVal, Fits, Enc, Meets, Placed, GrammarOf;
    GrammarOfOk(spec);
    if vs != [] {
      Compiles(spec, s, vs[0], intro, p);
      CompilesAll(spec, s, vs[1..], intro, p + |EncVal(spec, s, vs[0], p)|);
      assert FlatAll(spec, s, vs)[1..] == FlatAll(spec, s, vs[1..]);
    }
  }

  lemma {:induction false} CompilesCons(spec: Spec, c: Construct, args: seq<Val>, intro: bool, p: nat)
    requires SpecOk(spec) && DecodableCons(c) && TypedPars(spec, c, 0, args)
    ensures GrammarOk(GrammarOf(spec))
    ensures Fits(GrammarOf(spec), ConsOps(c, intro), FlatPars(spec, c, 0, args))
    ensures RunAt(GrammarOf(spec), ConsOps(c, intro), FlatPars(spec, c, 0, args), p) == ParsAt(spec, c, 0, args, p)
    decreases args, 1
  {
    hide SpecOk, GrammarOk, ParamsOps, FlatPars, TypedPars, ParsAt, Fits, RunAt, GrammarOf, DecodableCons, Run.Then;
    var g, x, n := GrammarOf(spec), FlatPars(spec, c, 0, args), Breaks(c, |c.pars|);
    CompilesPars(spec, c, 0, args, intro, p);
    var r := RunAt(g, ParamsOps(c, 0, intro), x, p);
    RunBraces(g, n, p + |r.bits|);
    RunConcat(g, ParamsOps(c, 0, intro), BraceOps(n), x, [], p);
    ThenNothing(r);
    assert x + [] == x;
  }

  lemma {:induction false} RunBraces(g: Grammar, n: nat, p: nat)
    requires GrammarOk(g)
    ensures Fits(g, BraceOps(n), []) && RunAt(g, BraceOps(n), [], p) == NOTHING
    decreases n
  {
    hide GrammarOk, Fits, RunAt;
    if n == 0 {
      EmptyRun(g, p);
    } else {
      RunBraces(g, n - 1, p);
      MarkThen(g, '}', BraceOps(n - 1), [], p);
    }
  }

  lemma {:induction false} CompilesPars(spec: Spec, c: Construct, i: nat, args: seq<Val>, intro: bool, p: nat)
    requires SpecOk(spec) && DecodableCons(c) && i <= |c.pars| && TypedPars(spec, c, i, args)
    ensures GrammarOk(GrammarOf(spec))
    ensures Fits(GrammarOf(spec), ParamsOps(c, i, intro), FlatPars(spec, c, i, args))
    ensures RunAt(GrammarOf(spec), ParamsOps(c, i, intro), FlatPars(spec, c, i, args), p) == ParsAt(spec, c, i, args, p)
    decreases args, 0
  {
    hide SpecOk, GrammarOk, ParamsOps, ParamOps, FlatPars, FlatPar, TypedPars, TypedPar, ParsAt, ParAt, GrammarOf,
         DecodableCons, Fits, RunAt, Run.Then, PaddingIf;
    GrammarOfOk(spec);
    var g := GrammarOf(spec);
    ParsUnfold(spec, c, i, args, intro, p);
    if args == [] {
      EmptyRun(g, p);
    } else {
      var intro' := intro || c.pars[i].intro;
      var pad := PaddingIf(c.pars[i].align, p);
      var one := pad.Then(ParAt(spec, c, i, args[0], p + |pad.bits|));
      CompilesPar(spec, c, i, args[0], intro', p);
      CompilesPars(spec, c, i + 1, args[1..], intro', p + |one.bits|);
      RunConcat(g, ParamOps(c, i, intro'), ParamsOps(c, i + 1, intro'),
                FlatPar(spec, c, i, args[0]), FlatPars(spec, c, i + 1, args[1..]), p);
    }
  }

  // One parameter and the rest: in the string, in the items, in the value.
  lemma ParsUnfold(spec: Spec, c: Construct, i: nat, args: seq<Val>, intro: bool, p: nat)
    requires SpecOk(spec) && DecodableCons(c) && i <= |c.pars| && TypedPars(spec, c, i, args)
    ensures args == [] ==>
              ParamsOps(c, i, intro) == [] && FlatPars(spec, c, i, args) == [] && ParsAt(spec, c, i, args, p) == NOTHING
    ensures args != [] ==>
              && i < |c.pars| && TypedPar(spec, c, i, args[0]) && TypedPars(spec, c, i + 1, args[1..])
              && var intro' := intro || c.pars[i].intro;
                 && ParamsOps(c, i, intro) == ParamOps(c, i, intro') + ParamsOps(c, i + 1, intro')
                 && FlatPars(spec, c, i, args) == FlatPar(spec, c, i, args[0]) + FlatPars(spec, c, i + 1, args[1..])
    ensures args != [] ==>
              var pad := PaddingIf(c.pars[i].align, p);
              var one := pad.Then(ParAt(spec, c, i, args[0], p + |pad.bits|));
              ParsAt(spec, c, i, args, p) == one.Then(ParsAt(spec, c, i + 1, args[1..], p + |one.bits|))
  {
    hide SpecOk, DecodableCons, ParamOps, FlatPar, EncPar, MeetsPar, PlacedPar, TypedPar, Zeros, PadTo8;
  }

  lemma {:induction false} CompilesPar(spec: Spec, c: Construct, i: nat, v: Val, intro: bool, p: nat)
    requires SpecOk(spec) && DecodableCons(c) && i < |c.pars| && TypedPar(spec, c, i, v)
    ensures GrammarOk(GrammarOf(spec))
    ensures Fits(GrammarOf(spec), ParamOps(c, i, intro), FlatPar(spec, c, i, v))
    ensures var pad := PaddingIf(c.pars[i].align, p);
            RunAt(GrammarOf(spec), ParamOps(c, i, intro), FlatPar(spec, c, i, v), p)
            == pad.Then(ParAt(spec, c, i, v, p + |pad.bits|))
    decreases v, 4
  {
    hide SpecOk, GrammarOk, SortOps, FlatPar, TypedPar, ParAt, GrammarOf, Fits, RunAt, Run.Then, PaddingIf,
         DecodableCons, Decodable;
    var par, g, items := c.pars[i], GrammarOf(spec), FlatPar(spec, c, i, v);
    var q := p + |PaddingIf(par.align, p).bits|;
    ParCore(c, i, intro);
    var core := CoreOps(c, i, intro);
    CompilesCore(spec, c, i, v, intro, q);
    var core1 := (if par.brk then [Mark('{')] else []) + core;
    RunMark(g, par.brk, '{', core, items, q);
    RunBar(g, par.align, core1, items, p);
    assert ParamOps(c, i, intro) == (if par.align then [Bar] else []) + core1;
  }

  // The operations of a parameter without alignment and break.
  function CoreOps(c: Construct, i: nat, intro: bool): seq<Op>
    requires DecodableCons(c) && i < |c.pars|
  {
    if IsStream(c, i) then [Group('@', SortOps(c.res, intro))] else SortOps(c.pars[i].sort, intro)
  }

  lemma ParCore(c: Construct, i: nat, intro: bool)
    requires DecodableCons(c) && i < |c.pars|
    ensures ParamOps(c, i, intro) ==
            var brk := if c.pars[i].brk then [Mark('{')] else [];
            (if c.pars[i].align then [Bar] else []) + (brk + CoreOps(c, i, intro))
  {
    hide SortOps, Decodable;
    ConcatAssoc(if c.pars[i].align then [Bar] else [], if c.pars[i].brk then [Mark('{')] else [], CoreOps(c, i, intro));
  }

  lemma {:induction false} CompilesCore(spec: Spec, c: Construct, i: nat, v: Val, intro: bool, p: nat)
    requires SpecOk(spec) && DecodableCons(c) && i < |c.pars| && TypedPar(spec, c, i, v)
    ensures GrammarOk(GrammarOf(spec))
    ensures Fits(GrammarOf(spec), CoreOps(c, i, intro), FlatPar(spec, c, i, v))
    ensures RunAt(GrammarOf(spec), CoreOps(c, i, intro), FlatPar(spec, c, i, v), p) == ParAt(spec, c, i, v, p)
    decreases v, 3
  {
    hide SpecOk, GrammarOk, SortOps, Flat, Typed, EncVal, MeetsVal, PlacedVal, GrammarOf, Fits, Enc, Meets, Placed,
         IntBits, Decodable;
    if IsStream(c, i) {
      var g, body, sub := GrammarOf(spec), SortOps(c.res, intro), Flat(spec, c.res, v.v);
      Compiles(spec, c.res, v.v, intro, 0);
      Compiles(spec, c.res, v.v, intro, p + |IntBits(|EncVal(spec, c.res, v.v, 0)|)|);
      RunOne(g, Group('@', body), ISub(Items(sub)), p);
    } else {
      Compiles(spec, c.pars[i].sort, v, intro, p);
    }
  }

  // ----- the items read determine the value

  lemma {:induction false} FlatDetermines(spec: Spec, s: Sort, v: Val, w: Val, x: seq<Item>, y: seq<Item>)
    requires Typed(spec, s, v) && Typed(spec, s, w)
    requires Flat(spec, s, v) + x == Flat(spec, s, w) + y
    ensures v == w && x == y
    decreases v, 1
  {
    hide FlatPars, FlatAll, TypedAll, TypedPars;
    match s.info
    case Undefined =>
    case Single(cons) => ParsDetermine(spec, cons, 0, v.args, w.args, x, y);
    case Builtin => OneItem(spec, s, v, w, x, y);
    case Basic =>
      OneItem(spec, s, v, w, x, y);
      ParsDetermine(spec, spec[s.code as char].conses[v.k], 0, v.args, w.args, [], []);
    case Compound(_) =>
      OneItem(spec, s, v, w, x, y);
      GroupDetermines(spec, s, v, w);
  }

  // Sorts other than single constructs read one item.
  lemma OneItem(spec: Spec, s: Sort, v: Val, w: Val, x: seq<Item>, y: seq<Item>)
    requires Typed(spec, s, v) && Typed(spec, s, w) && !s.info.Single?
    requires Flat(spec, s, v) + x == Flat(spec, s, w) + y
    ensures Flat(spec, s, v)[..] == Flat(spec, s, w)[..] && |Flat(spec, s, v)| == 1 && x == y
    ensures Flat(spec, s, v)[0] == Flat(spec, s, w)[0]
  {
    hide FlatPars, FlatAll, TypedAll, TypedPars;
    var a, b := Flat(spec, s, v)[0], Flat(spec, s, w)[0];
    assert Flat(spec, s, v) == [a] && Flat(spec, s, w) == [b];
    SameHead(a, b, x, y);
  }

  lemma SameHead(a: Item, b: Item, x: seq<Item>, y: seq<Item>)
    requires [a] + x == [b] + y
    ensures a == b && x == y
  {
    assert ([a] + x)[0] == a && ([a] + x)[1..] == x;
    assert ([b] + y)[0] == b && ([b] + y)[1..] == y;
  }

  lemma {:induction false} GroupDetermines(spec: Spec, s: Sort, v: Val, w: Val)
    requires Typed(spec, s, v) && Typed(spec, s, w) && s.info.Compound?
    requires Flat(spec, s, v) == Flat(spec, s, w)
    ensures v == w
    decreases v, 0
  {
    hide FlatAll, TypedAll;
    var arg := s.info.arg;
    assert Flat(spec, s, v)[0] == Flat(spec, s, w)[0];
    if v.Vals? {
      AllDetermine(spec, arg, v.elems, w.elems);
    } else if v.some != [] {
      assert FlatAll(spec, arg, v.some) == [FlatAll(spec, arg, v.some)[0]];
      assert FlatAll(spec, arg, w.some) == [FlatAll(spec, arg, w.some)[0]];
      AllDetermine(spec, arg, v.some, w.some);
    }
  }

  lemma {:induction false} AllDetermine(spec: Spec, s: Sort, vs: seq<Val>, ws: seq<Val>)
    requires TypedAll(spec, s, vs) && TypedAll(spec, s, ws) && FlatAll(spec, s, vs) == FlatAll(spec, s, ws)
    ensures vs == ws
    decreases vs
  {
    hide Flat, Typed;
    if vs != [] && ws != [] {
      assert FlatAll(spec, s, vs)[0] == FlatAll(spec, s, ws)[0];
      FlatDetermines(spec, s, vs[0], ws[0], [], []);
      assert FlatAll(spec, s, vs)[1..] == FlatAll(spec, s, ws)[1..];
      AllDetermine(spec, s, vs[1..], ws[1..]);
    }
  }

  lemma {:induction false} ParsDetermine(spec: Spec, c: Construct, i: nat, a: seq<Val>, b: seq<Val>,
                                         x: seq<Item>, y: seq<Item>)
    requires i <= |c.pars| && TypedPars(spec, c, i, a) && TypedPars(spec, c, i, b)
    requires FlatPars(spec, c, i, a) + x == FlatPars(spec, c, i, b) + y
    ensures a == b && x == y
    decreases a
  {
    hide FlatPar, TypedPar;
    if a == [] {
      assert [] + x == x && [] + y == y;
    } else {
      var a', b' := FlatPars(spec, c, i + 1, a[1..]), FlatPars(spec, c, i + 1, b[1..]);
      ConcatAssoc(FlatPar(spec, c, i, a[0]), a', x);
      ConcatAssoc(FlatPar(spec, c, i, b[0]), b', y);
      ParDetermines(spec, c, i, a[0], b[0], a' + x, b' + y);
      ParsDetermine(spec, c, i + 1, a[1..], b[1..], x, y);
    }
  }

  lemma {:induction false} ParDetermines(spec: Spec, c: Construct, i: nat, v: Val, w: Val, x: seq<Item>, y: seq<Item>)
    requires i < |c.pars| && TypedPar(spec, c, i, v) && TypedPar(spec, c, i, w)
    requires FlatPar(spec, c, i, v) + x == FlatPar(spec, c, i, w) + y
    ensures v == w && x == y
    decreases v, 2
  {
    hide Flat, Typed;
    if IsStream(c, i) {
      SameHead(FlatPar(spec, c, i, v)[0], FlatPar(spec, c, i, w)[0], x, y);
      FlatDetermines(spec, c.res, v.v, w.v, [], []);
    } else {
      FlatDetermines(spec, c.pars[i].sort, v, w, x, y);
    }
  }

  // ----- compile, then interpret

  // Compile a sort, let C read the string literal, and run the interpreter on
  // it where a value of the sort lies ahead: it reads that value and no other,
  // and stops exactly at its end.
  method CompileThenDecode(spec: Spec, sort: Sort, intro: bool, inp: Input, ghost v: Val) returns (out: seq<Item>)
    requires SpecOk(spec) && Decodable(sort) && Typed(spec, sort, v)
    requires PlacedVal(spec, sort, v, inp.Posn()) && Facing(inp, EncVal(spec, sort, v, inp.Posn()))
    modifies inp`here, inp`worksp, inp`ibPtr, inp`ibSize, inp`readError, inp.inbuffer, inp.file`pos
    ensures out == Flat(spec, sort, v)
    ensures forall w: Val :: Typed(spec, sort, w) && Flat(spec, sort, w) == out ==> w == v
    ensures Passed(inp, old(inp.Posn()) + |old(EncVal(spec, sort, v, inp.Posn()))|)
  {
    hide SpecOk, GrammarOk, Decodable, Typed, Flat, EncVal, MeetsVal, PlacedVal, SortOps, SortText, Text, Unescape,
         OpsOk, GrammarOf, Fits, Enc, Meets, Placed, Facing, ByteAt;
    Compiles(spec, sort, v, intro, inp.Posn());
    SortOpsOk(sort, intro);
    SortSpells(sort, intro, "");
    ghost var ops := SortOps(sort, intro);
    var emitter := new Emitter();
    var _ := emitter.OutputSort(sort, intro);
    NothingAdded(SortText(sort, intro), Text(ops));
    var str := Unescape(emitter.text);
    out := Decode(inp, GrammarOf(spec), str, 0, false, ops, Flat(spec, sort, v), "");
    forall w: Val | Typed(spec, sort, w) && Flat(spec, sort, w) == out ensures w == v {
      FlatDetermines(spec, sort, v, w, [], []);
    }
  }

  lemma NothingAdded(s: string, t: string)
    ensures Unescape("") == "" && "" + s == s == s + "" && t + "" == t && t[0..] == "" + (t + "")
  {
  }
}
