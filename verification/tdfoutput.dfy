// The compiler from sort descriptions to decode strings: output_sort and
// output_cons in make_tdf/src/output.c.
module TdfOutput {
  import opened Bits
  import opened Codes
  import opened Files
  import opened Views
  import opened DispFile
  import opened Encodings
  import opened DecodeStrings

  // A code letter; the C program keeps it in a char.
  type Code = c: nat | c < 256

  datatype Kind = Simple | Token | Cond | Edge | Foreign | Special | Dummy

  // A sort: its code letter and, once it is defined, what it is.
  datatype Sort = Sort(code: Code, edge: bool, info: Info)

  datatype Info =
    | Undefined
    | Builtin
    | Basic
    | Single(cons: Construct)
    | Compound(arg: Sort)

  datatype Construct = Construct(kind: Kind, res: Sort, pars: seq<Param>)

  datatype Param = Param(sort: Sort, align: bool, brk: bool, intro: bool)

  // ----- what is written, character by character

  function Octal(c: nat): string
    requires c < 32
  {
    ['\\', '0', ('0' as int + c / 8) as char, ('0' as int + c % 8) as char]
  }

  // A code letter as it appears in the generated C program.
  function LetterText(c: Code): string {
    if c < 32 then Octal(c) else [c as char]
  }

  // The encoding string of a sort.
  function SortText(s: Sort, intro: bool): string
    decreases s
  {
    match s.info
    case Undefined => ""
    case Builtin => LetterText(s.code) + (if intro && s.edge then "&" else "")
    case Basic => LetterText(s.code) + (if intro && s.edge then "&" else "")
    case Single(cons) => ParamsText(cons, 0, intro) + Braces(Breaks(cons, |cons.pars|))
    case Compound(arg) => [s.code as char] + "[" + SortText(arg, intro) + "]"
  }

  function Braces(n: nat): string {
    if n == 0 then "" else "}" + Braces(n - 1)
  }

  // The breaks among the first i parameters.
  function Breaks(c: Construct, i: nat): nat
    requires i <= |c.pars|
  {
    if i == 0 then 0 else Breaks(c, i - 1) + if c.pars[i - 1].brk then 1 else 0
  }

  // The encoding strings of the parameters from i on.
  function ParamsText(c: Construct, i: nat, intro: bool): string
    requires i <= |c.pars|
    decreases c, |c.pars| - i, 1
  {
    if i == |c.pars| then ""
    else ParamText(c, i, intro || c.pars[i].intro) + ParamsText(c, i + 1, intro || c.pars[i].intro)
  }

  // One parameter; a bitstream in a conditional construct is followed by the
  // encoding string of the construct's own sort.
  function ParamText(c: Construct, i: nat, intro: bool): string
    requires i < |c.pars|
    decreases c, |c.pars| - i, 0
  {
    var par := c.pars[i];
    (if par.align then "|" else "") + (if par.brk then "{" else "") + SortText(par.sort, intro)
    + OwnText(c, par.sort.code, intro)
  }

  function OwnText(c: Construct, code: Code, intro: bool): string
    decreases c, 0, 0
  {
    if code == '@' as nat && c.kind.Cond? then "[" + SortText(c.res, intro) + "]" else ""
  }

  // The text of the parameters in front of the k-th, of that one, and of those
  // behind it; from the first intro parameter on edges are marked.
  lemma ParamsSplit(c: Construct, k: nat, intro: bool) returns (edges: bool)
    requires k < |c.pars|
    ensures edges == (intro || exists j :: 0 <= j <= k && c.pars[j].intro)
    ensures var par := c.pars[k];
            ParamsText(c, 0, intro) ==
              ParamsText(c.(pars := c.pars[..k]), 0, intro)
              + ((if par.align then "|" else "") + (if par.brk then "{" else "") + SortText(par.sort, edges)
                 + (if par.sort.code == '@' as nat && c.kind.Cond? then "[" + SortText(c.res, edges) + "]" else ""))
              + ParamsText(c.(pars := c.pars[k + 1..]), 0, edges)
  {
    hide SortText;
    var sofar := intro || exists j :: 0 <= j < k && c.pars[j].intro;
    edges := sofar || c.pars[k].intro;
    ParamsFront(c, 0, k, intro);
    var d := c.(pars := c.pars[k + 1..]);
    assert d.pars[0..] == d.pars;
    ParamsSame(c, d, k + 1, 0, edges);
    var before, one, behind := ParamsText(c.(pars := c.pars[..k]), 0, intro), ParamText(c, k, edges),
                               ParamsText(c, k + 1, edges);
    assert behind == ParamsText(d, 0, edges);
    assert ParamsText(c, 0, intro) == before + (one + behind);
    ConcatAssoc(before, one, behind);
    var par := c.pars[k];
    assert one == (if par.align then "|" else "") + (if par.brk then "{" else "") + SortText(par.sort, edges)
                  + OwnText(c, par.sort.code, edges);
  }

  lemma {:induction false} ParamsFront(c: Construct, i: nat, k: nat, intro: bool)
    requires i <= k <= |c.pars|
    ensures ParamsText(c, i, intro) ==
              ParamsText(c.(pars := c.pars[..k]), i, intro)
              + ParamsText(c, k, intro || exists j :: i <= j < k && c.pars[j].intro)
    decreases k - i
  {
    hide SortText;
    var d := c.(pars := c.pars[..k]);
    var edges := intro || exists j :: i <= j < k && c.pars[j].intro;
    if i == k {
      assert "" + ParamsText(c, k, intro) == ParamsText(c, k, intro);
    } else {
      var intro' := intro || c.pars[i].intro;
      assert edges == (intro' || exists j :: i + 1 <= j < k && c.pars[j].intro);
      ParamsFront(c, i + 1, k, intro');
      assert ParamText(c, i, intro') == ParamText(d, i, intro');
      ConcatAssoc(ParamText(d, i, intro'), ParamsText(d, i + 1, intro'), ParamsText(c, k, edges));
    }
  }

  lemma {:induction false} ParamsSame(c: Construct, d: Construct, i: nat, j: nat, intro: bool)
    requires i <= |c.pars| && j <= |d.pars| && c.pars[i..] == d.pars[j..] && c.kind == d.kind && c.res == d.res
    ensures ParamsText(c, i, intro) == ParamsText(d, j, intro)
    decreases |c.pars| - i
  {
    hide SortText;
    assert |c.pars| - i == |d.pars| - j;
    if i < |c.pars| {
      assert c.pars[i] == c.pars[i..][0] == d.pars[j..][0] == d.pars[j];
      assert c.pars[i + 1..] == c.pars[i..][1..] == d.pars[j..][1..] == d.pars[j + 1..];
      var intro' := intro || c.pars[i].intro;
      ParamsSame(c, d, i + 1, j + 1, intro');
      assert OwnText(c, c.pars[i].sort.code, intro') == OwnText(d, d.pars[j].sort.code, intro');
      assert ParamText(c, i, intro') == ParamText(d, j, intro');
    }
  }

  // The output file, as far as it has been written.
  class Emitter {
    var text: string

    constructor ()
      ensures text == ""
    {
      text := "";
    }

    method OutputString(s: string)
      modifies this
      ensures text == old(text) + s
    {
      var i := 0;
      while i < |s|
        invariant i <= |s| && text == old(text) + s[..i]
      {
        text := text + [s[i]];
        i := i + 1;
      }
    }

    // Write the encoding strings of the parameter sorts of a construct.
    method OutputCons(cons: Construct, first: bool)
      modifies this
      ensures text == old(text) + (ParamsText(cons, 0, first) + Braces(Breaks(cons, |cons.pars|)))
      decreases cons, |cons.pars| + 1
    {
      hide SortText;
      ghost var was, whole, n := text, ParamsText(cons, 0, first), |cons.pars|;
      var intro, brks, i := first, 0, 0;
      ghost var done := "";
      while i < |cons.pars|
        invariant i <= |cons.pars| && text == was + done && brks == Breaks(cons, i)
        invariant done + ParamsText(cons, i, intro) == whole
      {
        ghost var before := intro;
        if cons.pars[i].intro { intro := true; }
        ghost var part := ParamText(cons, i, intro);
        OutputParam(cons, i, intro);
        ConcatAssoc(was, done, part);
        ConcatAssoc(done, part, ParamsText(cons, i + 1, intro));
        done := done + part;
        brks := brks + if cons.pars[i].brk then 1 else 0;
        i := i + 1;
      }
      assert done == whole;
      CloseBraces(brks);
      ConcatAssoc(was, whole, Braces(Breaks(cons, n)));
    }

    method OutputParam(cons: Construct, i: nat, intro: bool)
      requires i < |cons.pars|
      modifies this
      ensures text == old(text) + ParamText(cons, i, intro)
      decreases cons, |cons.pars| - i
    {
      hide SortText;
      var par := cons.pars[i];
      ghost var was := text;
      if par.align { OutputString("|"); }
      ghost var t1 := if par.align then "|" else "";
      if par.brk { OutputString("{"); }
      ghost var t2 := if par.brk then "{" else "";
      assert text == was + (t1 + t2);
      ghost var t3 := SortText(par.sort, intro);
      var c := OutputSort(par.sort, intro);
      ConcatAssoc(was, t1 + t2, t3);
      OutputOwn(cons, c, par.sort.code, intro);
      ConcatAssoc(was, t1 + t2 + t3, OwnText(cons, par.sort.code, intro));
    }

    // Behind a bitstream of a conditional construct, its own sort.
    method OutputOwn(cons: Construct, c: Code, ghost code: Code, intro: bool)
      requires c == code
      modifies this
      ensures text == old(text) + OwnText(cons, code, intro)
      decreases cons, 0
    {
      hide SortText;
      if c == '@' as nat && cons.kind.Cond? {
        // In brackets: the third character leaves one of two parameters.
        ghost var was := text;
        OutputString("[");
        var _ := OutputSort(cons.res, intro);
        ghost var s := SortText(cons.res, intro);
        assert was + "[" + s == was + ("[" + s);
        OutputString("]");
        ConcatAssoc(was, "[" + s, "]");
      } else {
        assert text + "" == text;
      }
    }

    method CloseBraces(n: nat)
      modifies this
      ensures text == old(text) + Braces(n)
    {
      var left := n;
      assert text + Braces(n) == old(text) + Braces(n);
      while left > 0
        invariant text + Braces(left) == old(text) + Braces(n)
      {
        ConcatAssoc(text, "}", Braces(left - 1));
        OutputString("}");
        left := left - 1;
      }
    }

    // Write the encoding string of a sort and return its code.
    method OutputSort(sort: Sort, intro: bool) returns (c: Code)
      modifies this
      ensures text == old(text) + SortText(sort, intro) && c == sort.code
      decreases sort
    {
      c := sort.code;
      match sort.info {
        case Undefined =>
        case Builtin | Basic =>
          OutputString(LetterText(c));
          if intro && sort.edge { OutputString("&"); }
        case Single(cons) =>
          OutputCons(cons, intro);
        case Compound(arg) =>
          OutputString([c as char]);
          OutputString("[");
          var _ := OutputSort(arg, intro);
          OutputString("]");
      }
    }
  }
}
