// The brackets and braces of a compiled decode string are balanced and nested.
module BraceBalance {
  import opened Bits
  import opened Encodings
  import opened TdfOutput
  import opened Compile

  // What is open, the innermost first.
  datatype Level = Broken | Open(stack: string)

  // What is open behind c; closing anything but the innermost is an error.
  function Next(c: char, open: string): Level {
    if c == '{' || c == '[' then Open([c] + open)
    else if c != '}' && c != ']' then Open(open)
    else if open != "" && open[0] == (if c == '}' then '{' else '[') then Open(open[1..])
    else Broken
  }

  function Scan(s: string, open: string): Level {
    if s == "" then Open(open)
    else match Next(s[0], open)
      case Broken => Broken
      case Open(stack) => Scan(s[1..], stack)
  }

  predicate Plain(c: char) { c !in "[]{}" }

  lemma ScanStep(c: char, t: string, open: string)
    ensures c == '{' || c == '[' ==> Scan([c] + t, open) == Scan(t, [c] + open)
    ensures c == '}' ==> Scan([c] + t, "{" + open) == Scan(t, open)
    ensures c == ']' ==> Scan([c] + t, "[" + open) == Scan(t, open)
    ensures Plain(c) ==> Scan([c] + t, open) == Scan(t, open)
  {
    assert ([c] + t)[1..] == t;
    assert ("{" + open)[1..] == open && ("[" + open)[1..] == open;
  }

  // So many braces more.
  function Deeper(k: nat, open: string): string {
    if k == 0 then open else "{" + Deeper(k - 1, open)
  }

  lemma {:induction false} DeeperStill(k: nat, open: string)
    ensures Deeper(k, "{" + open) == Deeper(k + 1, open)
  {
    if k > 0 { DeeperStill(k - 1, open); }
  }

  // The string of a sort closes just what it opens, so do the strings of lists,
  // options and bitstreams inside it.
  lemma {:induction false} SortBalanced(s: Sort, intro: bool, t: string, open: string)
    requires Decodable(s)
    ensures Scan(Text(SortOps(s, intro)) + t, open) == Scan(t, open)
    decreases s
  {
    hide Scan, Text;
    match s.info
    case Builtin => LetterBalanced(s, intro, t, open);
    case Basic => LetterBalanced(s, intro, t, open);
    case Single(cons) => ConsBalanced(cons, intro, t, open);
    case Compound(arg) =>
      SortBalanced(arg, intro, "]" + t, "[" + open);
      GroupBalanced(s.code as char, SortOps(arg, intro), t, open);
  }

  lemma LetterBalanced(s: Sort, intro: bool, t: string, open: string)
    requires Decodable(s) && (s.info.Builtin? || s.info.Basic?)
    ensures Scan(Text(SortOps(s, intro)) + t, open) == Scan(t, open)
  {
    hide Scan, Text, LetterOk;
    var l := Letter(s.code as char);
    NoBrace(s);
    TextOne(l);
    if intro && s.edge {
      TextCons(l, [Mark('&')]);
      TextOne(Mark('&'));
      assert [s.code as char] + "&" + t == [s.code as char] + ("&" + t);
      ScanStep(s.code as char, "&" + t, open);
      ScanStep('&', t, open);
    } else {
      assert [l] + [] == [l];
      ScanStep(s.code as char, t, open);
    }
  }

  lemma NoBrace(s: Sort)
    requires Decodable(s) && (s.info.Builtin? || s.info.Basic?)
    ensures Plain(s.code as char)
  {
  }

  lemma GroupBalanced(c: char, body: seq<Op>, t: string, open: string)
    requires Plain(c) && Scan(Text(body) + ("]" + t), "[" + open) == Scan("]" + t, "[" + open)
    ensures Scan(Text([Group(c, body)]) + t, open) == Scan(t, open)
  {
    hide Scan, Text;
    TextOne(Group(c, body));
    assert [c] + "[" + Text(body) + "]" + t == [c] + ("[" + (Text(body) + ("]" + t)));
    ScanStep(c, "[" + (Text(body) + ("]" + t)), open);
    ScanStep('[', Text(body) + ("]" + t), open);
    ScanStep(']', t, open);
  }

  lemma {:induction false} ConsBalanced(c: Construct, intro: bool, t: string, open: string)
    requires DecodableCons(c)
    ensures Scan(Text(ConsOps(c, intro)) + t, open) == Scan(t, open)
    decreases c, |c.pars| + 1
  {
    hide Scan, Text, ParamsOps, BraceOps, Breaks;
    var k := Breaks(c, |c.pars|);
    TextConcat(ParamsOps(c, 0, intro), BraceOps(k));
    ConcatAssoc(Text(ParamsOps(c, 0, intro)), Text(BraceOps(k)), t);
    BreaksFrom(c, 0);
    ParamsOpen(c, 0, intro, Text(BraceOps(k)) + t, open);
    BracesClose(k, t, open);
  }

  lemma BracesClose(k: nat, t: string, open: string)
    ensures Scan(Text(BraceOps(k)) + t, Deeper(k, open)) == Scan(t, open)
    decreases k
  {
    hide Scan, Text;
    if k == 0 {
      NoText();
      assert "" + t == t;
    } else {
      TextCons(Mark('}'), BraceOps(k - 1));
      assert OpText(Mark('}')) + Text(BraceOps(k - 1)) + t == ['}'] + (Text(BraceOps(k - 1)) + t);
      ScanStep('}', Text(BraceOps(k - 1)) + t, Deeper(k - 1, open));
      BracesClose(k - 1, t, open);
    }
  }

  lemma {:induction false} BreaksFrom(c: Construct, i: nat)
    requires i <= |c.pars|
    ensures Breaks(c, 0) == 0 && Breaks(c, i) <= Breaks(c, |c.pars|)
    ensures i < |c.pars| ==> Breaks(c, i + 1) == Breaks(c, i) + if c.pars[i].brk then 1 else 0
    decreases |c.pars| - i
  {
    if i < |c.pars| { BreaksFrom(c, i + 1); }
  }

  // The parameters from the i-th on open one brace for every break.
  lemma {:induction false} ParamsOpen(c: Construct, i: nat, intro: bool, t: string, open: string)
    requires DecodableCons(c) && i <= |c.pars|
    ensures Breaks(c, i) <= Breaks(c, |c.pars|)
    ensures Scan(Text(ParamsOps(c, i, intro)) + t, open) == Scan(t, Deeper(Breaks(c, |c.pars|) - Breaks(c, i), open))
    decreases c, |c.pars| - i, 1
  {
    hide Scan, Text, ParamOps, Breaks;
    BreaksFrom(c, i);
    if i == |c.pars| {
      NoText();
      assert "" + t == t;
    } else {
      var intro' := intro || c.pars[i].intro;
      var one, more := Text(ParamOps(c, i, intro')), Text(ParamsOps(c, i + 1, intro'));
      TextConcat(ParamOps(c, i, intro'), ParamsOps(c, i + 1, intro'));
      ConcatAssoc(one, more, t);
      ParamOpens(c, i, intro', more + t, open);
      BreaksFrom(c, i + 1);
      DeeperStill(Breaks(c, |c.pars|) - Breaks(c, i + 1), open);
      ParamsOpen(c, i + 1, intro', t, if c.pars[i].brk then "{" + open else open);
    }
  }

  lemma {:induction false} ParamOpens(c: Construct, i: nat, intro: bool, t: string, open: string)
    requires DecodableCons(c) && i < |c.pars|
    ensures Scan(Text(ParamOps(c, i, intro)) + t, open) == Scan(t, if c.pars[i].brk then "{" + open else open)
    decreases c, |c.pars| - i, 0
  {
    hide Scan, Text, SortOps, Decodable;
    var par := c.pars[i];
    var core := if IsStream(c, i) then [Group('@', SortOps(c.res, intro))] else SortOps(par.sort, intro);
    var m := if par.brk then "{" + open else open;
    CoreBalanced(c, i, intro, t, m);
    var core1 := (if par.brk then [Mark('{')] else []) + core;
    InFront(par.brk, Mark('{'), '{', core, t, open);
    InFront(par.align, Bar, '|', core1, t, open);
    ConcatAssoc(if par.align then [Bar] else [], if par.brk then [Mark('{')] else [], core);
    assert ParamOps(c, i, intro) == (if par.align then [Bar] else []) + core1;
  }

  // A mark in front, if the flag is set.
  lemma InFront(flag: bool, op: Op, ch: char, ops: seq<Op>, t: string, open: string)
    requires OpText(op) == [ch] && (Plain(ch) || ch == '{')
    ensures Scan(Text((if flag then [op] else []) + ops) + t, open)
            == Scan(Text(ops) + t, if flag && ch == '{' then "{" + open else open)
  {
    hide Scan, Text;
    if flag {
      TextCons(op, ops);
      ConcatAssoc([ch], Text(ops), t);
      ScanStep(ch, Text(ops) + t, open);
    } else {
      assert [] + ops == ops;
    }
  }

  lemma {:induction false} CoreBalanced(c: Construct, i: nat, intro: bool, t: string, open: string)
    requires DecodableCons(c) && i < |c.pars|
    ensures var core := if IsStream(c, i) then [Group('@', SortOps(c.res, intro))] else SortOps(c.pars[i].sort, intro);
            Scan(Text(core) + t, open) == Scan(t, open)
    decreases c, 0, 0
  {
    hide Scan, Text, SortOps;
    if IsStream(c, i) {
      SortBalanced(c.res, intro, "]" + t, "[" + open);
      GroupBalanced('@', SortOps(c.res, intro), t, open);
    } else {
      SortBalanced(c.pars[i].sort, intro, t, open);
    }
  }

  // What the compiler writes for a sort, as C reads it: every bracket and brace
  // is closed, in the right order.
  lemma TextBalanced(s: Sort, intro: bool)
    requires Decodable(s)
    ensures Scan(Unescape(SortText(s, intro)), "") == Open("")
  {
    hide Unescape, Text, SortText, SortOps, Decodable;
    SortSpells(s, intro, "");
    SortBalanced(s, intro, "", "");
    NoEscape();
    assert SortText(s, intro) + "" == SortText(s, intro) && Text(SortOps(s, intro)) + "" == Text(SortOps(s, intro));
  }

  lemma NoEscape()
    ensures Unescape("") == "" && Scan("", "") == Open("")
  {
  }
}
