// Compiling a sort to its decode string preserves its meaning.
module Compile {
  import opened Bits
  import opened Codes
  import opened Files
  import opened Views
  import opened DispFile
  import opened Encodings
  import opened DecodeStrings
  import opened TdfOutput

  // ----- the sorts the interpreter can decode

  predicate LetterOk(code: Code) {
    code as char !in "[]{}&|*+?@%\0\\\"ij$TF~"
  }

  // Defined, with letters, lists, options and conditional constructs only.
  predicate Decodable(s: Sort) {
    match s.info
    case Undefined => false
    case Builtin => s.code == 'i' as nat || s.code == '$' as nat
    case Basic => LetterOk(s.code)
    case Single(cons) => s.code != '@' as nat && DecodableCons(cons)
    case Compound(arg) => (s.code == '*' as nat || s.code == '?' as nat) && Decodable(arg)
  }

  predicate DecodableCons(c: Construct) {
    forall i :: 0 <= i < |c.pars| ==>
      if IsStream(c, i) then !c.pars[i].sort.edge && Decodable(c.res)
      else Decodable(c.pars[i].sort)
  }

  // A parameter that is the bitstream of a conditional construct.
  predicate IsStream(c: Construct, i: nat)
    requires i < |c.pars|
  {
    c.kind.Cond? && c.pars[i].sort.info.Builtin? && c.pars[i].sort.code == '@' as nat
  }

  // ----- the operations a sort's string spells

  function SortOps(s: Sort, intro: bool): seq<Op>
    requires Decodable(s)
    decreases s
  {
    match s.info
    case Builtin => [Letter(s.code as char)] + (if intro && s.edge then [Mark('&')] else [])
    case Basic => [Letter(s.code as char)] + (if intro && s.edge then [Mark('&')] else [])
    case Single(cons) => ConsOps(cons, intro)
    case Compound(arg) => [Group(s.code as char, SortOps(arg, intro))]
  }

  function ConsOps(c: Construct, intro: bool): seq<Op>
    requires DecodableCons(c)
    decreases c, |c.pars| + 1
  {
    ParamsOps(c, 0, intro) + BraceOps(Breaks(c, |c.pars|))
  }

  function BraceOps(n: nat): seq<Op> {
    if n == 0 then [] else [Mark('}')] + BraceOps(n - 1)
  }

  function ParamsOps(c: Construct, i: nat, intro: bool): seq<Op>
    requires DecodableCons(c) && i <= |c.pars|
    decreases c, |c.pars| - i, 1
  {
    if i == |c.pars| then []
    else ParamOps(c, i, intro || c.pars[i].intro) + ParamsOps(c, i + 1, intro || c.pars[i].intro)
  }

  function ParamOps(c: Construct, i: nat, intro: bool): seq<Op>
    requires DecodableCons(c) && i < |c.pars|
    decreases c, |c.pars| - i, 0
  {
    var par := c.pars[i];
    (if par.align then [Bar] else []) + (if par.brk then [Mark('{')] else [])
    + if IsStream(c, i) then [Group('@', SortOps(c.res, intro))] else SortOps(par.sort, intro)
  }

  // ----- the string literal as C reads it

  // An octal escape stands for one character.
  function Unescape(t: string): string
    decreases |t|
  {
    if t == "" then ""
    else if t[0] == '\\' && |t| >= 4 && OctalDigit(t[1]) && OctalDigit(t[2]) && OctalDigit(t[3]) then
      [((t[1] - '0') as int % 4 * 64 + (t[2] - '0') as int * 8 + (t[3] - '0') as int) as char] + Unescape(t[4..])
    else [t[0]] + Unescape(t[1..])
  }

  predicate OctalDigit(c: char) { '0' <= c <= '7' }

  lemma UnescapePlain(c: char, t: string)
    requires c != '\\'
    ensures Unescape([c] + t) == [c] + Unescape(t)
  {
    assert ([c] + t)[1..] == t;
  }

  lemma UnescapeLetter(code: Code, t: string)
    requires code != '\\' as nat
    ensures Unescape(LetterText(code) + t) == [code as char] + Unescape(t)
  {
    if code < 32 {
      var s := Octal(code) + t;
      assert s[4..] == t && s[0] == '\\' && s[1] == '0';
      assert s[2] - '0' == (code / 8) as char && s[3] - '0' == (code % 8) as char;
    } else {
      UnescapePlain(code as char, t);
    }
  }

  lemma {:induction false} UnescapeBraces(n: nat, t: string)
    ensures Unescape(Braces(n) + t) == Text(BraceOps(n)) + Unescape(t)
    decreases n
  {
    if n == 0 {
      assert Braces(0) + t == t && Text([]) + Unescape(t) == Unescape(t);
    } else {
      assert Braces(n) + t == "}" + (Braces(n - 1) + t);
      UnescapePlain('}', Braces(n - 1) + t);
      UnescapeBraces(n - 1, t);
      TextCons(Mark('}'), BraceOps(n - 1));
      ConcatAssoc("}", Text(BraceOps(n - 1)), Unescape(t));
    }
  }

  lemma TextCons(op: Op, ops: seq<Op>)
    ensures Text([op] + ops) == OpText(op) + Text(ops)
  {
    assert ([op] + ops)[1..] == ops;
  }

  lemma {:induction false} TextConcat(a: seq<Op>, b: seq<Op>)
    ensures Text(a + b) == Text(a) + Text(b)
    decreases |a|
  {
    if a == [] {
      assert a + b == b;
    } else {
      assert (a + b)[1..] == a[1..] + b;
      TextConcat(a[1..], b);
      ConcatAssoc(OpText(a[0]), Text(a[1..]), Text(b));
    }
  }

  // What the compiler writes for a sort is, as a C string, the text of its
  // operations.
  lemma {:induction false} SortSpells(s: Sort, intro: bool, t: string)
    requires Decodable(s)
    ensures Unescape(SortText(s, intro) + t) == Text(SortOps(s, intro)) + Unescape(t)
    decreases s
  {
    hide Unescape, Text;
    match s.info
    case Builtin => LetterSpells(s, intro, t);
    case Basic => LetterSpells(s, intro, t);
    case Single(cons) => ConsSpells(cons, intro, t);
    case Compound(arg) =>
      SortSpells(arg, intro, "]" + t);
      GroupSpells(s.code as char, SortText(arg, intro), SortOps(arg, intro), t);
  }

  lemma TextOne(op: Op)
    ensures Text([op]) == OpText(op)
  {
    assert Text([op]) == OpText(op) + Text([op][1..]);
  }

  lemma LetterSpells(s: Sort, intro: bool, t: string)
    requires Decodable(s) && (s.info.Builtin? || s.info.Basic?)
    ensures Unescape(SortText(s, intro) + t) == Text(SortOps(s, intro)) + Unescape(t)
  {
    hide Unescape, Text, LetterText, LetterOk;
    var l, edge := Letter(s.code as char), intro && s.edge;
    NoBackslash(s);
    if edge {
      ConcatAssoc(LetterText(s.code), "&", t);
      UnescapeLetter(s.code, "&" + t);
      UnescapePlain('&', t);
      TextCons(l, [Mark('&')]);
      TextOne(Mark('&'));
      ConcatAssoc([s.code as char], "&", Unescape(t));
    } else {
      assert LetterText(s.code) + "" + t == LetterText(s.code) + t;
      UnescapeLetter(s.code, t);
      assert [l] + [] == [l];
      TextOne(l);
    }
  }

  lemma NoBackslash(s: Sort)
    requires Decodable(s) && (s.info.Builtin? || s.info.Basic?)
    ensures s.code != '\\' as nat
  {
  }

  lemma {:induction false} ConsSpells(c: Construct, intro: bool, t: string)
    requires DecodableCons(c)
    ensures Unescape(ParamsText(c, 0, intro) + Braces(Breaks(c, |c.pars|)) + t)
            == Text(ConsOps(c, intro)) + Unescape(t)
    decreases c, |c.pars| + 1
  {
    hide Unescape, Text, ParamsText, ParamsOps, Braces, BraceOps, Breaks;
    var n := Breaks(c, |c.pars|);
    ConcatAssoc(ParamsText(c, 0, intro), Braces(n), t);
    ParamsSpell(c, 0, intro, Braces(n) + t);
    UnescapeBraces(n, t);
    TextConcat(ParamsOps(c, 0, intro), BraceOps(n));
    ConcatAssoc(Text(ParamsOps(c, 0, intro)), Text(BraceOps(n)), Unescape(t));
  }

  lemma {:induction false} ParamsSpell(c: Construct, i: nat, intro: bool, t: string)
    requires DecodableCons(c) && i <= |c.pars|
    ensures Unescape(ParamsText(c, i, intro) + t) == Text(ParamsOps(c, i, intro)) + Unescape(t)
    decreases c, |c.pars| - i, 1
  {
    hide Unescape, Text, ParamText, ParamOps;
    if i == |c.pars| {
      assert [] + t == t;
      NoText();
      assert [] + Unescape(t) == Unescape(t);
    } else {
      var intro' := intro || c.pars[i].intro;
      var one, more := ParamText(c, i, intro'), ParamsText(c, i + 1, intro');
      ConcatAssoc(one, more, t);
      ParamSpells(c, i, intro', more + t);
      ParamsSpell(c, i + 1, intro', t);
      TextConcat(ParamOps(c, i, intro'), ParamsOps(c, i + 1, intro'));
      ConcatAssoc(Text(ParamOps(c, i, intro')), Text(ParamsOps(c, i + 1, intro')), Unescape(t));
    }
  }

  lemma NoText()
    ensures Text([]) == ""
  {
  }

  lemma {:induction false} ParamSpells(c: Construct, i: nat, intro: bool, t: string)
    requires DecodableCons(c) && i < |c.pars|
    ensures Unescape(ParamText(c, i, intro) + t) == Text(ParamOps(c, i, intro)) + Unescape(t)
    decreases c, |c.pars| - i, 0
  {
    hide Unescape, Text, SortText, SortOps;
    var par := c.pars[i];
    var s := if IsStream(c, i) then "@[" + SortText(c.res, intro) + "]" else SortText(par.sort, intro);
    var o := if IsStream(c, i) then [Group('@', SortOps(c.res, intro))] else SortOps(par.sort, intro);
    CoreSpells(c, i, intro, t);
    var s1, o1 := (if par.brk then "{" else "") + s, (if par.brk then [Mark('{')] else []) + o;
    Prefixed(par.brk, '{', Mark('{'), s, o, t);
    Prefixed(par.align, '|', Bar, s1, o1, t);
    CoreText(c, i, intro, s);
    assert ParamOps(c, i, intro) == (if par.align then [Bar] else []) + o1;
  }

  // A character in front, if the flag is set.
  lemma Prefixed(flag: bool, ch: char, op: Op, s: string, o: seq<Op>, t: string)
    requires ch != '\\' && OpText(op) == [ch]
    requires Unescape(s + t) == Text(o) + Unescape(t)
    ensures Unescape((if flag then [ch] else "") + s + t) == Text((if flag then [op] else []) + o) + Unescape(t)
  {
    hide Unescape, Text;
    if flag {
      assert [ch] + s + t == [ch] + (s + t);
      UnescapePlain(ch, s + t);
      TextCons(op, o);
      ConcatAssoc([ch], Text(o), Unescape(t));
    } else {
      assert "" + s == s && [] + o == o;
    }
  }

  // Whether a sort's string can be '@' only for a bitstream.
  lemma CoreText(c: Construct, i: nat, intro: bool, s: string)
    requires DecodableCons(c) && i < |c.pars|
    requires s == if IsStream(c, i) then "@[" + SortText(c.res, intro) + "]" else SortText(c.pars[i].sort, intro)
    ensures ParamText(c, i, intro) ==
            (if c.pars[i].align then "|" else "") + ((if c.pars[i].brk then "{" else "") + s)
  {
    hide SortText, Decodable;
    var par := c.pars[i];
    var front := (if par.align then "|" else "") + (if par.brk then "{" else "");
    Own(c, i, intro);
    var t, own := SortText(par.sort, intro), OwnText(c, par.sort.code, intro);
    ConcatAssoc(front, t, own);
    ConcatAssoc(if par.align then "|" else "", if par.brk then "{" else "", s);
    assert t + own == s;
  }

  lemma Own(c: Construct, i: nat, intro: bool)
    requires DecodableCons(c) && i < |c.pars|
    ensures IsStream(c, i) ==>
              && SortText(c.pars[i].sort, intro) == "@"
              && "@" + OwnText(c, c.pars[i].sort.code, intro) == "@[" + SortText(c.res, intro) + "]"
    ensures !IsStream(c, i) ==> OwnText(c, c.pars[i].sort.code, intro) == ""
  {
    var par := c.pars[i];
    if IsStream(c, i) {
      hide Decodable;
      assert !par.sort.edge;
      assert "@" + ("[" + SortText(c.res, intro) + "]") == "@[" + SortText(c.res, intro) + "]";
    } else {
      hide SortText;
      assert par.sort.code != '@' as nat;
    }
  }

  lemma {:induction false} CoreSpells(c: Construct, i: nat, intro: bool, t: string)
    requires DecodableCons(c) && i < |c.pars|
    ensures var s := if IsStream(c, i) then "@[" + SortText(c.res, intro) + "]" else SortText(c.pars[i].sort, intro);
            var o := if IsStream(c, i) then [Group('@', SortOps(c.res, intro))] else SortOps(c.pars[i].sort, intro);
            Unescape(s + t) == Text(o) + Unescape(t)
    decreases c, 0, 0
  {
    hide Unescape, Text, SortText, SortOps;
    if IsStream(c, i) {
      SortSpells(c.res, intro, "]" + t);
      GroupSpells('@', SortText(c.res, intro), SortOps(c.res, intro), t);
      assert ['@'] + "[" == "@[";
    } else {
      SortSpells(c.pars[i].sort, intro, t);
    }
  }

  // A group in brackets.
  lemma GroupSpells(c: char, inner: string, ops: seq<Op>, t: string)
    requires c != '\\' && Unescape(inner + ("]" + t)) == Text(ops) + Unescape("]" + t)
    ensures Unescape([c] + "[" + inner + "]" + t) == Text([Group(c, ops)]) + Unescape(t)
  {
    hide Unescape, Text;
    GroupText(c, inner, t);
    UnescapePlain(c, "[" + (inner + ("]" + t)));
    UnescapePlain('[', inner + ("]" + t));
    UnescapePlain(']', t);
    TextOne(Group(c, ops));
    GroupText(c, Text(ops), Unescape(t));
  }
}
