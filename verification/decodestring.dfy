// Decode strings and their interpreter: decode and skip_sub in disp/src/tdf.c.
module DecodeStrings {
  import opened Bits
  import opened Codes
  import opened Files
  import opened Views
  import opened DispFile
  import opened DispBasic
  import opened Encodings
  import opened Alignment
  import opened Runs

  // ----- skipping a group

  // What follows the bracket that closes the current group, n inner groups deep.
  function After(s: string, n: nat): string {
    if s == "" then ""
    else if s[0] == '[' then After(s[1..], n + 1)
    else if s[0] == ']' then (if n == 0 then s[1..] else After(s[1..], n - 1))
    else After(s[1..], n)
  }

  // Step over the text in brackets that starts at i.
  method SkipSub(str: string, i: nat) returns (j: nat)
    requires i <= |str|
    ensures j <= |str|
    ensures str[j..] == if str[i..] != "" && str[i] == '[' then After(str[i + 1..], 0) else ""
  {
    j := i;
    if j < |str| && str[j] == '[' {
      j := j + 1;
      var n := 0;
      while j < |str|
        invariant i + 1 <= j <= |str| && 0 <= n
        invariant After(str[j..], n) == After(str[i + 1..], 0)
      {
        var c := str[j];
        assert str[j..][1..] == str[j + 1..];
        j := j + 1;
        if c == '[' {
          n := n + 1;
        } else if c == ']' {
          if n == 0 { return; }
          n := n - 1;
        }
      }
    }
    j := |str|;
  }

  // Decode strings are balanced: scanning one leaves the depth unchanged.
  lemma {:induction false} Balanced(ops: seq<Op>, t: string, n: nat)
    requires OpsOk(ops)
    ensures After(Text(ops) + t, n) == After(t, n)
    decreases ops
  {
    if ops == [] {
      assert Text(ops) + t == t;
    } else {
      var rest := Text(ops[1..]) + t;
      ConcatAssoc(OpText(ops[0]), Text(ops[1..]), t);
      BalancedOp(ops[0], rest, n);
      Balanced(ops[1..], t, n);
    }
  }

  lemma {:induction false} BalancedOp(op: Op, t: string, n: nat)
    requires OpOk(op)
    ensures After(OpText(op) + t, n) == After(t, n)
    decreases op
  {
    match op
    case Letter(c) => AfterStep(c, t, n);
    case Mark(c) => AfterStep(c, t, n);
    case Bar => AfterStep('|', t, n);
    case Group(c, body) =>
      var t1 := "]" + t;
      var t2 := Text(body) + t1;
      GroupText(c, Text(body), t);
      AfterStep(c, "[" + t2, n);
      AfterStep('[', t2, n);
      Balanced(body, t1, n + 1);
      AfterStep(']', t, n + 1);
  }

  lemma GroupText(c: char, body: string, t: string)
    ensures [c] + "[" + body + "]" + t == [c] + ("[" + (body + ("]" + t)))
  {
  }

  lemma AfterStep(c: char, t: string, n: nat)
    ensures After([c] + t, n) ==
            if c == '[' then After(t, n + 1)
            else if c == ']' then (if n == 0 then t else After(t, n - 1))
            else After(t, n)
  {
    assert ([c] + t)[1..] == t;
  }

  // ----- reading

  // The bits s lie ahead, inside the file.
  ghost predicate Facing(inp: Input, s: seq<bool>)
    reads inp, inp.inbuffer, inp.file
  {
    && inp.Valid() && !inp.readError
    && inp.Posn() + |s| <= 8 * |inp.file.data| && Holds(inp.file.data, inp.Posn(), s)
  }

  // Everything up to position p has been read, without an error.
  twostate predicate Passed(inp: Input, p: nat)
    reads inp, inp.inbuffer, inp.file
  {
    inp.Valid() && !inp.readError && inp.Posn() == p && inp.file.data == old(inp.file.data)
  }

  // Reading the first of two bit strings leaves the second one ahead.
  lemma FacingNext(inp: Input, p: nat, s: seq<bool>, t: seq<bool>)
    requires inp.Valid() && !inp.readError
    requires p + |s + t| <= 8 * |inp.file.data| && Holds(inp.file.data, p, s + t)
    ensures Holds(inp.file.data, p, s)
    ensures inp.Posn() == p + |s| ==> Facing(inp, t)
  {
    hide Holds;
    HoldsConcat(inp.file.data, p, s, t);
  }

  method ReadNum(inp: Input, ghost n: nat) returns (r: nat)
    requires Facing(inp, IntBits(n))
    modifies inp`here, inp`worksp, inp`ibPtr, inp`ibSize, inp`readError, inp.inbuffer, inp.file`pos
    ensures r == n && Passed(inp, old(inp.Posn()) + |IntBits(n)|)
  {
    hide Holds, IntAt, IntBits, ByteAt, Remains;
    IntInverts(inp.file.data, inp.Posn(), n);
    r := TdfInt(inp);
  }

  // Check for a list, whose bit must not be set, and read the number of its
  // elements, on any file and also after an error.
  method ReadHead(inp: Input) returns (r: nat, illegal: bool)
    requires inp.Valid()
    modifies inp`here, inp`worksp, inp`ibPtr, inp`ibSize, inp`readError, inp.inbuffer, inp.file`pos
    ensures inp.Valid()
    ensures !old(inp.readError) ==> (illegal <==> NumAt(inp.file.data, old(inp.Posn()), 1) == 1)
    ensures !old(inp.readError) && old(inp.Posn()) < 8 * |inp.file.data| ==>
              (r, inp.Posn()) == IntAt(inp.file.data, old(inp.Posn()) + 1, 0)
    ensures old(inp.readError) || old(inp.Posn()) >= 8 * |inp.file.data| ==>
              illegal && r == 0 && inp.readError && inp.Posn() == old(inp.Posn()) + 1
    ensures inp.readError <==> old(inp.readError) || old(inp.Posn()) >= 8 * |inp.file.data|
                               || inp.Posn() > 8 * |inp.file.data|
  {
    hide Holds, IntAt, ByteAt, Remains, NumAt;
    OneBit(inp.Seen(), inp.Posn());
    var flag := inp.Fetch(1);
    illegal := flag != 0;
    r := TdfInt(inp);
  }

  lemma OneBit(data: seq<byte>, p: nat)
    ensures NumAt(data, p, 1) == if BitAt(data, p) then 1 else 0
    ensures p >= 8 * |data| ==> NumAt(data, p, 1) == 1
  {
    assert [] + [BitAt(data, p)] == [BitAt(data, p)] && Ahead(data, p, 1) == [BitAt(data, p)];
    FlagRead(data, p, BitAt(data, p));
    if p >= 8 * |data| { OnesBeyond(data, p); }
  }

  // What the bits in front of a list of n elements are.
  lemma HeadAhead(data: seq<byte>, p: nat, n: nat)
    requires Holds(data, p, ListHead(n))
    ensures NumAt(data, p, 1) == 0 && IntAt(data, p + 1, 0) == (n, p + |ListHead(n)|)
  {
    hide Holds, IntAt, IntBits, NumAt;
    HoldsConcat(data, p, [false], IntBits(n));
    FlagRead(data, p, false);
    IntInverts(data, p + 1, n);
  }

  // There it is no error, and gives that number.
  method ReadLength(inp: Input, ghost n: nat) returns (r: nat, illegal: bool)
    requires Facing(inp, ListHead(n))
    modifies inp`here, inp`worksp, inp`ibPtr, inp`ibSize, inp`readError, inp.inbuffer, inp.file`pos
    ensures r == n && !illegal && Passed(inp, old(inp.Posn()) + |ListHead(n)|)
  {
    hide Holds, IntAt, IntBits, ByteAt, Remains, NumAt;
    HeadAhead(inp.file.data, inp.Posn(), n);
    r, illegal := ReadHead(inp);
  }

  method ReadCode(inp: Input, info: SortInfo, ghost k: nat) returns (r: nat)
    requires info.extend ==> info.bits >= 1 && k >= 1
    requires !info.extend ==> k < Pow2(info.bits)
    requires Facing(inp, CodeBits(info, k))
    modifies inp`here, inp`worksp, inp`ibPtr, inp`ibSize, inp`readError, inp.inbuffer, inp.file`pos
    ensures r == k && Passed(inp, old(inp.Posn()) + |CodeBits(info, k)|)
  {
    hide Holds, ExtnAt, ExtnBits, NumAt, BitsOf, Pow2, ByteAt, Remains;
    if info.extend {
      ExtnInverts(inp.file.data, inp.Posn(), info.bits, k, 0);
      r := FetchExtn(inp, info.bits);
    } else {
      HoldsNum(inp.file.data, inp.Posn(), info.bits, k);
      r := inp.Fetch(info.bits);
    }
  }

  // The n characters of a string, size bits each.
  method ReadChars(inp: Input, size: nat, n: nat, ghost chars: seq<nat>) returns (r: seq<nat>)
    requires |chars| == n && forall j :: 0 <= j < n ==> chars[j] < Pow2(size)
    requires Facing(inp, CharBits(size, chars))
    modifies inp`here, inp`worksp, inp`ibPtr, inp`ibSize, inp`readError, inp.inbuffer, inp.file`pos
    ensures r == chars && Passed(inp, old(inp.Posn()) + |CharBits(size, chars)|)
  {
    hide Holds, CharBits, NumAt, BitsOf, Pow2, ByteAt, Remains;
    ghost var end := inp.Posn() + |CharBits(size, chars)|;
    r := [];
    assert chars[0..] == chars;
    while |r| < n
      invariant |r| <= n && r == chars[..|r|]
      invariant Facing(inp, CharBits(size, chars[|r|..])) && inp.file.data == old(inp.file.data)
      invariant inp.Posn() + |CharBits(size, chars[|r|..])| == end
      decreases n - |r|
    {
      ghost var i, p := |r|, inp.Posn();
      CharStep(size, chars, i);
      FacingNext(inp, p, BitsOf(size, chars[i]), CharBits(size, chars[i + 1..]));
      HoldsNum(inp.file.data, p, size, chars[i]);
      var c := inp.Fetch(size);
      FacingNext(inp, p, BitsOf(size, chars[i]), CharBits(size, chars[i + 1..]));
      r := r + [c];
    }
    NoChars(size, chars);
  }

  lemma CharStep(size: nat, chars: seq<nat>, i: nat)
    requires i < |chars|
    ensures CharBits(size, chars[i..]) == BitsOf(size, chars[i]) + CharBits(size, chars[i + 1..])
  {
    assert chars[i..][1..] == chars[i + 1..];
  }

  lemma NoChars(size: nat, chars: seq<nat>)
    ensures CharBits(size, chars[|chars|..]) == []
  {
  }

  // ----- what the bits of a value are

  // Where a letter's value lies: the number; the construct and its arguments.
  lemma LetterLies(g: Grammar, c: char, item: Item, data: seq<byte>, p: nat)
    requires GrammarOk(g) && FitsLetter(g, c, item) && Holds(data, p, EncLetter(g, c, item, p))
    ensures item.INum? ==> c == 'i' && IntAt(data, p, 0) == (item.n, p + |EncLetter(g, c, item, p)|)
    ensures item.ISort? ==>
              var (k, q) := if g[c].extend then ExtnAt(data, p, g[c].bits, 0)
                            else (NumAt(data, p, g[c].bits), p + g[c].bits);
              k == item.code && Holds(data, q, Enc(g, g[c].table[k], item.args, q))
  {
    hide Holds, Enc, IntAt, ExtnAt, NumAt, IntBits, ExtnBits, BitsOf, CharBits, Pow2;
    match item
    case INum(n) => IntInverts(data, p, n);
    case IStr(_, _) =>
    case ISort(_, k, args) =>
      var code := CodeBits(g[c], k);
      HoldsConcat(data, p, code, Enc(g, g[c].table[k], args, p + |code|));
      if g[c].extend {
        ExtnInverts(data, p, g[c].bits, k, 0);
      } else {
        HoldsNum(data, p, g[c].bits, k);
      }
  }

  // The j-th of fields that are size bits each.
  function Field(start: nat, size: nat, j: nat): nat { start + size * j }

  // The size, the number and the codes of the characters.
  lemma StringLies(g: Grammar, c: char, item: Item, data: seq<byte>, p: nat) returns (start: nat)
    requires GrammarOk(g) && FitsLetter(g, c, item) && Holds(data, p, EncLetter(g, c, item, p)) && item.IStr?
    ensures c == '$' && IntAt(data, p, 0).0 == item.size
    ensures IntAt(data, IntAt(data, p, 0).1, 0) == (|item.chars|, start)
    ensures forall j: nat :: j < |item.chars| ==> NumAt(data, Field(start, item.size, j), item.size) == item.chars[j]
    ensures p + |EncLetter(g, c, item, p)| == Field(start, item.size, |item.chars|)
  {
    hide Holds, Enc, IntAt, NumAt, IntBits, CharBits, Pow2;
    var a, b, s := IntBits(item.size), IntBits(|item.chars|), CharBits(item.size, item.chars);
    HoldsConcat(data, p, a + b, s);
    HoldsConcat(data, p, a, b);
    IntInverts(data, p, item.size);
    IntInverts(data, p + |a|, |item.chars|);
    start := p + |a + b|;
    CharsLie(data, start, item.size, item.chars);
  }

  lemma {:induction false} CharsLie(data: seq<byte>, p: nat, size: nat, chars: seq<nat>)
    requires Holds(data, p, CharBits(size, chars)) && forall j :: 0 <= j < |chars| ==> chars[j] < Pow2(size)
    ensures p + |CharBits(size, chars)| == Field(p, size, |chars|)
    ensures forall j: nat :: j < |chars| ==> NumAt(data, Field(p, size, j), size) == chars[j]
    decreases |chars|
  {
    hide Holds, NumAt, BitsOf, Pow2;
    if chars != [] {
      HoldsConcat(data, p, BitsOf(size, chars[0]), CharBits(size, chars[1..]));
      HoldsNum(data, p, size, chars[0]);
      CharsLie(data, p + size, size, chars[1..]);
      forall j: nat | 0 < j < |chars| ensures NumAt(data, Field(p, size, j), size) == chars[j] {
        assert Field(p + size, size, j - 1) == Field(p, size, j);
        assert chars[1..][j - 1] == chars[j];
      }
      assert Field(p + size, size, |chars| - 1) == Field(p, size, |chars|);
      assert Field(p, size, 0) == p;
    }
  }

  // Where a group's value lies: a bit that is not set, the number of elements, or
  // one less, and the elements; a bit that is set if something is there, and what
  // is there; the number of bits of a bitstream, and the bits.
  lemma GroupLies(g: Grammar, c: char, body: seq<Op>, item: Item, data: seq<byte>, p: nat)
    requires GrammarOk(g) && FitsGroup(g, c, body, item) && Holds(data, p, EncGroup(g, c, body, item, p))
    ensures item.IList? ==>
              var (n, q) := IntAt(data, p + 1, 0);
              && NumAt(data, p, 1) == 0 && |item.elems| == (if c == '*' then n else n + 1)
              && Holds(data, q, EncAll(g, body, item.elems, q))
    ensures item.IOpt? ==>
              && NumAt(data, p, 1) == (if item.present then 1 else 0)
              && (item.present ==> Holds(data, p + 1, Enc(g, body, item.some.items, p + 1)))
    ensures item.ISub? ==>
              var (n, q) := IntAt(data, p, 0);
              n == |Enc(g, body, item.sub.items, 0)| && Holds(data, q, Enc(g, body, item.sub.items, 0))
  {
    hide Holds, Enc, EncAll, IntAt, NumAt, IntBits, ListHead;
    match item
    case IList(elems) =>
      var n := if c == '*' then |elems| else |elems| - 1;
      var b := ListHead(n);
      HoldsConcat(data, p, b, EncAll(g, body, elems, p + |b|));
      HeadAhead(data, p, n);
    case IOpt(present, some) =>
      var more := if present then Enc(g, body, some.items, p + 1) else [];
      assert [present] + [] == [present];
      HoldsConcat(data, p, [present], more);
      FlagRead(data, p, present);
    case ISub(sub) =>
      var b := Enc(g, body, sub.items, 0);
      HoldsConcat(data, p, IntBits(|b|), b);
      IntInverts(data, p, |b|);
  }

  // ----- the interpreter

  // From i on the string spells the operations ops and then rest, and the value
  // items of ops lies ahead, up to the position end.
  ghost predicate Poised(inp: Input, g: Grammar, str: string, i: nat, ops: seq<Op>, items: seq<Item>,
                         rest: string, end: nat)
    requires GrammarOk(g)
    reads inp, inp.inbuffer, inp.file
  {
    && i <= |str| && str[i..] == Text(ops) + rest
    && OpsOk(ops) && Fits(g, ops, items) && Placed(g, ops, items, inp.Posn())
    && var bits := Enc(g, ops, items, inp.Posn());
       Facing(inp, bits) && inp.Posn() + |bits| == end
  }

  // Decode the string from start on: up to its end or the bracket that closes
  // the current group.  At the encoding of a value whose bitstreams are placed as
  // they must be this reads that value and stops at its end.
  method Decode(inp: Input, g: Grammar, str: string, start: nat,
                ghost lead: bool, ghost ops: seq<Op>, ghost items: seq<Item>, ghost rest: string)
    returns (out: seq<Item>)
    requires start <= |str| && str[start..] == (if lead then "[" else "") + (Text(ops) + rest)
    requires rest == "" || rest[0] == ']'
    requires GrammarOk(g) && OpsOk(ops) && Fits(g, ops, items)
    requires Placed(g, ops, items, inp.Posn()) && Facing(inp, Enc(g, ops, items, inp.Posn()))
    modifies inp`here, inp`worksp, inp`ibPtr, inp`ibSize, inp`readError, inp.inbuffer, inp.file`pos
    ensures out == items
    ensures Passed(inp, old(inp.Posn()) + |old(Enc(g, ops, items, inp.Posn()))|)
    decreases items, 2
  {
    hide Poised, Facing, Holds, Enc, Placed, Text, Fits, GrammarOk, OpsOk, Remains, ByteAt;
    ghost var end := inp.Posn() + |Enc(g, ops, items, inp.Posn())|;
    ghost var m, k := 0, 0;
    var i := start;
    out := [];
    assert ops[0..] == ops && items[0..] == items;
    PoisedStart(inp, g, str, start, lead, ops, items, rest);
    if i < |str| && str[i] == '[' {
      i := i + 1;
    }
    while i < |str|
      invariant m <= |ops| && k <= |items| && out == items[..k]
      invariant Poised(inp, g, str, i, ops[m..], items[k..], rest, end) && inp.file.data == old(inp.file.data)
      decreases |str| - i
    {
      Starts(inp, g, str, i, ops, m, items, k, rest, end);
      var c := str[i];
      i := i + 1;
      match c {
        case '[' | '{' | '}' | '&' =>
          // No item belongs to these.
          m := m + 1;
        case ']' =>
          // The value of the group ends here.
          return;
        case '|' =>
          // Padding lies ahead up to the next byte.
          AlignStep(inp, g, str, i, ops[m..], items[k..], rest, end);
          m := m + 1;
        case '*' | '+' | '?' | '@' =>
          var item;
          item, i := GroupStep(inp, g, str, i, ops[m..], items[k..], rest, end);
          out := out + [item];
          m, k := m + 1, k + 1;
        case _ =>
          var item := LetterStep(inp, g, str, i, ops[m..], items[k..], rest, end);
          out := out + [item];
          m, k := m + 1, k + 1;
      }
    }
    Starts(inp, g, str, i, ops, m, items, k, rest, end);
  }

  // At the start; the bracket of a group is ignored.
  lemma PoisedStart(inp: Input, g: Grammar, str: string, i: nat, lead: bool, ops: seq<Op>, items: seq<Item>,
                    rest: string)
    requires i <= |str| && str[i..] == (if lead then "[" else "") + (Text(ops) + rest)
    requires rest == "" || rest[0] == ']'
    requires GrammarOk(g) && OpsOk(ops) && Fits(g, ops, items)
    requires Placed(g, ops, items, inp.Posn()) && Facing(inp, Enc(g, ops, items, inp.Posn()))
    ensures var j := if i < |str| && str[i] == '[' then i + 1 else i;
            Poised(inp, g, str, j, ops, items, rest, inp.Posn() + |Enc(g, ops, items, inp.Posn())|)
  {
    hide Facing, Enc, Placed, Fits, GrammarOk;
    if i < |str| {
      assert str[i..][0] == str[i] && str[i..][1..] == str[i + 1..];
    }
    if lead {
      assert ("[" + (Text(ops) + rest))[1..] == Text(ops) + rest;
    } else {
      assert "" + (Text(ops) + rest) == Text(ops) + rest;
      if ops != [] {
        assert OpOk(ops[0]);
        assert Text(ops)[0] == OpText(ops[0])[0] == HeadChar(ops[0]);
      }
    }
  }

  // The first character of an operation.
  function HeadChar(op: Op): char {
    match op
    case Letter(c) => c
    case Mark(c) => c
    case Bar => '|'
    case Group(c, _) => c
  }

  // What the next character says: the operation it starts, or the end.
  lemma Starts(inp: Input, g: Grammar, str: string, i: nat, ops: seq<Op>, m: nat, items: seq<Item>, k: nat,
               rest: string, end: nat)
    requires GrammarOk(g) && m <= |ops| && k <= |items|
    requires Poised(inp, g, str, i, ops[m..], items[k..], rest, end)
    requires rest == "" || rest[0] == ']'
    ensures m == |ops| ==> k == |items| && Passed'(inp, end) && (i < |str| ==> str[i] == ']')
    ensures m < |ops| ==>
              && i < |str| && str[i] == HeadChar(ops[m]) && OpOk(ops[m])
              && ops[m..] != [] && ops[m..][0] == ops[m] && ops[m..][1..] == ops[m + 1..]
              && (ops[m].Mark? ==> Poised(inp, g, str, i + 1, ops[m + 1..], items[k..], rest, end))
              && (ops[m].Letter? || ops[m].Group? ==>
                    && k < |items| && items[k..][0] == items[k] && items[k..][1..] == items[k + 1..]
                    && (ops[m].Group? ==> ops[m].c in "*+?@"))
  {
    hide Holds, Enc, Meets, Placed, Fits, LetterAt, GroupAt, Padding, FitsLetter, FitsGroup, GrammarOk;
    HeadIs(g, ops[m..], items[k..], rest, inp.Posn());
    if i < |str| {
      assert str[i..][0] == str[i] && str[i..][1..] == str[i + 1..];
    }
    if m < |ops| {
      assert ops[m..][0] == ops[m] && ops[m..][1..] == ops[m + 1..];
    }
    if k < |items| {
      assert items[k..][0] == items[k] && items[k..][1..] == items[k + 1..];
    }
  }

  ghost predicate Passed'(inp: Input, p: nat)
    reads inp, inp.inbuffer, inp.file
  {
    inp.Valid() && !inp.readError && inp.Posn() == p
  }

  method AlignStep(inp: Input, g: Grammar, str: string, i: nat,
                   ghost ops: seq<Op>, ghost items: seq<Item>, ghost rest: string, ghost end: nat)
    requires GrammarOk(g) && i > 0 && ops != [] && ops[0].Bar?
    requires Poised(inp, g, str, i - 1, ops, items, rest, end)
    modifies inp`here, inp`worksp, inp`ibPtr, inp`ibSize, inp`readError, inp.inbuffer, inp.file`pos
    ensures Poised(inp, g, str, i, ops[1..], items, rest, end)
  {
    hide Holds, Enc, Meets, Placed, Text, Fits, GrammarOk, OpText, Zeros, PadTo8, Remains, ByteAt;
    ghost var p := inp.Posn();
    HeadIs(g, ops, items, rest, p);
    NextChar(str, i - 1, '|', Text(ops[1..]) + rest);
    FacingNext(inp, p, Zeros(PadTo8(p)), Enc(g, ops[1..], items, p + PadTo8(p)));
    inp.ByteAlign();
    FacingNext(inp, p, Zeros(PadTo8(p)), Enc(g, ops[1..], items, p + PadTo8(p)));
  }

  method LetterStep(inp: Input, g: Grammar, str: string, i: nat,
                    ghost ops: seq<Op>, ghost items: seq<Item>, ghost rest: string, ghost end: nat)
    returns (r: Item)
    requires GrammarOk(g) && 0 < i <= |str| && ops != [] && ops[0].Letter? && items != []
    requires Poised(inp, g, str, i - 1, ops, items, rest, end)
    modifies inp`here, inp`worksp, inp`ibPtr, inp`ibSize, inp`readError, inp.inbuffer, inp.file`pos
    ensures r == items[0] && Poised(inp, g, str, i, ops[1..], items[1..], rest, end)
    decreases items, 1
  {
    hide Holds, Enc, Meets, Placed, Text, Fits, GrammarOk, OpText, EncLetter, MeetsLetter, PlacedLetter, FitsLetter,
         Remains, ByteAt;
    ghost var p := inp.Posn();
    HeadIs(g, ops, items, rest, p);
    NextChar(str, i - 1, ops[0].c, Text(ops[1..]) + rest);
    ghost var bits := EncLetter(g, ops[0].c, items[0], p);
    FacingNext(inp, p, bits, Enc(g, ops[1..], items[1..], p + |bits|));
    r := DecodeLetter(inp, g, str[i - 1], items[0]);
    FacingNext(inp, p, bits, Enc(g, ops[1..], items[1..], p + |bits|));
  }

  method GroupStep(inp: Input, g: Grammar, str: string, i: nat,
                   ghost ops: seq<Op>, ghost items: seq<Item>, ghost rest: string, ghost end: nat)
    returns (r: Item, j: nat)
    requires GrammarOk(g) && 0 < i <= |str| && ops != [] && ops[0].Group? && items != []
    requires Poised(inp, g, str, i - 1, ops, items, rest, end)
    modifies inp`here, inp`worksp, inp`ibPtr, inp`ibSize, inp`readError, inp.inbuffer, inp.file`pos
    ensures r == items[0] && j > i && Poised(inp, g, str, j, ops[1..], items[1..], rest, end)
    decreases items, 1
  {
    hide Holds, Enc, Meets, Placed, Text, Fits, GrammarOk, OpText, EncGroup, MeetsGroup, PlacedGroup, FitsGroup,
         Remains, ByteAt;
    ghost var p := inp.Posn();
    HeadIs(g, ops, items, rest, p);
    ghost var body, tail := ops[0].body, Text(ops[1..]) + rest;
    NextChar(str, i - 1, ops[0].c, "[" + (Text(body) + ("]" + tail)));
    ghost var bits := EncGroup(g, ops[0].c, body, items[0], p);
    FacingNext(inp, p, bits, Enc(g, ops[1..], items[1..], p + |bits|));
    r := DecodeGroup(inp, g, str[i - 1], str, i, body, items[0], tail);
    FacingNext(inp, p, bits, Enc(g, ops[1..], items[1..], p + |bits|));
    j := SkipGroup(str, i, body, tail);
  }

  lemma NextChar(str: string, i: nat, c: char, t: string)
    requires i <= |str| && str[i..] == [c] + t
    ensures i < |str| && str[i] == c && str[i + 1..] == t
  {
    assert str[i..][0] == str[i] && str[i..][1..] == str[i + 1..];
  }

  // The string s starts with the operation op; the operations more are left.
  ghost predicate HeadSpelt(op: Op, more: seq<Op>, s: string, rest: string) {
    var tail := Text(more) + rest;
    && (op.Mark? ==> op.c in "{}&" && s == [op.c] + tail)
    && (op.Bar? ==> s == ['|'] + tail)
    && (op.Letter? ==> op.c !in "[]{}&|*+?@%\0" && s == [op.c] + tail)
    && (op.Group? ==> OpsOk(op.body) && s == [op.c] + ("[" + (Text(op.body) + ("]" + tail))))
  }

  // The value r starts with what the operation op reads.
  ghost predicate HeadRead(g: Grammar, op: Op, more: seq<Op>, items: seq<Item>, p: nat, r: Run)
    requires GrammarOk(g)
  {
    && (op.Mark? ==> Fits(g, more, items) && r == RunAt(g, more, items, p))
    && (op.Bar? ==> Fits(g, more, items) && r == Padding(p).Then(RunAt(g, more, items, p + PadTo8(p))))
    && (op.Letter? ==>
          && items != [] && FitsLetter(g, op.c, items[0]) && Fits(g, more, items[1..])
          && var f := LetterAt(g, op.c, items[0], p);
             r == f.Then(RunAt(g, more, items[1..], p + |f.bits|)))
    && (op.Group? ==>
          && items != [] && op.c in "*+?@" && FitsGroup(g, op.c, op.body, items[0]) && Fits(g, more, items[1..])
          && var f := GroupAt(g, op.c, op.body, items[0], p);
             r == f.Then(RunAt(g, more, items[1..], p + |f.bits|)))
  }

  lemma HeadIs(g: Grammar, ops: seq<Op>, items: seq<Item>, rest: string, p: nat)
    requires OpsOk(ops) && GrammarOk(g) && Fits(g, ops, items)
    ensures ops == [] ==> Text(ops) + rest == rest && items == [] && Enc(g, ops, items, p) == []
    ensures ops != [] ==>
              && OpOk(ops[0]) && OpsOk(ops[1..]) && HeadSpelt(ops[0], ops[1..], Text(ops) + rest, rest)
              && HeadRead(g, ops[0], ops[1..], items, p, RunAt(g, ops, items, p))
  {
    hide Fits, RunAt, GrammarOk, Text, OpOk, HeadRead, HeadSpelt, Enc;
    HeadText(ops, rest);
    if ops == [] {
      NothingHere(g, items, p);
    } else {
      assert ops == [ops[0]] + ops[1..];
      HeadValue(g, ops[0], ops[1..], items, p);
    }
  }

  lemma HeadValue(g: Grammar, op: Op, more: seq<Op>, items: seq<Item>, p: nat)
    requires GrammarOk(g) && Fits(g, [op] + more, items)
    ensures HeadRead(g, op, more, items, p, RunAt(g, [op] + more, items, p))
  {
    hide Fits, RunAt, LetterAt, GroupAt, FitsLetter, FitsGroup, GrammarOk, Padding, PadTo8, Run.Then;
    match op
    case Mark(c) => MarkThen(g, c, more, items, p);
    case Bar => BarThen(g, more, items, p);
    case Letter(_) => FirstItem(g, op, more, items, p);
    case Group(c, body) =>
      FirstItem(g, op, more, items, p);
      GroupLetter(g, c, body, items[0]);
  }

  // The text of a decode string, by its first operation.
  lemma HeadText(ops: seq<Op>, rest: string)
    requires OpsOk(ops)
    ensures ops == [] ==> Text(ops) + rest == rest
    ensures ops != [] ==>
              OpOk(ops[0]) && OpsOk(ops[1..]) && HeadSpelt(ops[0], ops[1..], Text(ops) + rest, rest)
  {
    if ops != [] {
      var op := ops[0];
      assert OpOk(op);
      ConcatAssoc(OpText(op), Text(ops[1..]), rest);
      if op.Group? { GroupText(op.c, Text(op.body), Text(ops[1..]) + rest); }
    } else {
      assert [] + rest == rest;
    }
  }

  lemma GroupLetter(g: Grammar, c: char, body: seq<Op>, item: Item)
    requires FitsGroup(g, c, body, item)
    ensures c in "*+?@"
  {
  }

  lemma NothingHere(g: Grammar, items: seq<Item>, p: nat)
    requires GrammarOk(g) && Fits(g, [], items)
    ensures items == [] && Enc(g, [], items, p) == []
  {
  }

  // Step over a group: its text is balanced.
  method SkipGroup(str: string, i: nat, ghost body: seq<Op>, ghost tail: string) returns (j: nat)
    requires i <= |str| && OpsOk(body) && str[i..] == "[" + (Text(body) + ("]" + tail))
    ensures i < j <= |str| && str[j..] == tail
  {
    hide Text, OpsOk;
    Balanced(body, "]" + tail, 0);
    AfterStep(']', tail, 0);
    assert str[i..][0] == str[i] && str[i..][1..] == str[i + 1..];
    j := SkipSub(str, i);
    assert |str[j..]| < |str[i..]|;
  }

  // Decode a group whose brackets start at i.
  method DecodeGroup(inp: Input, g: Grammar, c: char, str: string, i: nat,
                     ghost body: seq<Op>, ghost item: Item, ghost tail: string)
    returns (r: Item)
    requires i <= |str| && OpsOk(body) && str[i..] == "[" + (Text(body) + ("]" + tail))
    requires GrammarOk(g) && FitsGroup(g, c, body, item)
    requires PlacedGroup(g, c, body, item, inp.Posn()) && Facing(inp, EncGroup(g, c, body, item, inp.Posn()))
    modifies inp`here, inp`worksp, inp`ibPtr, inp`ibSize, inp`readError, inp.inbuffer, inp.file`pos
    ensures r == item
    ensures Passed(inp, old(inp.Posn()) + |old(EncGroup(g, c, body, item, inp.Posn()))|)
    decreases item, 0
  {
    hide Holds, Enc, EncAll, Meets, Placed, PlacedAll, FitsAll, Text, IntBits, ListHead, GrammarOk, OpsOk,
         Remains, ByteAt;
    ghost var p := inp.Posn();
    if c == '*' || c == '+' {
      // The group is repeated n times, or n + 1 times
      ghost var b := ListHead(if c == '*' then |item.elems| else |item.elems| - 1);
      FacingNext(inp, p, b, EncAll(g, body, item.elems, p + |b|));
      var n, illegal := ReadLength(inp, if c == '*' then |item.elems| else |item.elems| - 1);
      FacingNext(inp, p, b, EncAll(g, body, item.elems, p + |b|));
      var elems := DecodeList(inp, g, str, i, if c == '*' then n else n + 1, body, item.elems, tail);
      assert !illegal;
      r := IList(elems);
    } else if c == '?' {
      // The group is optional
      assert [item.present] + [] == [item.present];
      FacingNext(inp, p, [item.present], if item.present then Enc(g, body, item.some.items, p + 1) else []);
      FlagRead(inp.file.data, p, item.present);
      var present := inp.Fetch(1);
      FacingNext(inp, p, [item.present], if item.present then Enc(g, body, item.some.items, p + 1) else []);
      if present != 0 {
        var some := Decode(inp, g, str, i, true, body, item.some.items, "]" + tail);
        r := IOpt(true, Items(some));
      } else {
        r := IOpt(false, Items([]));
      }
    } else {
      // The group is a bitstream behind its length
      ghost var bits := Enc(g, body, item.sub.items, 0);
      FacingNext(inp, p, IntBits(|bits|), bits);
      var len := ReadNum(inp, |bits|);
      FacingNext(inp, p, IntBits(|bits|), bits);
      var end := len + inp.Posn();
      EncSame(g, body, item.sub.items, 0, inp.Posn());
      var sub := Decode(inp, g, str, i, true, body, item.sub.items, "]" + tail);
      // The check for a wrong bitstream length succeeds.
      assert inp.Posn() == end;
      r := ISub(Items(sub));
    }
  }

  lemma FlagRead(data: seq<byte>, p: nat, b: bool)
    requires Holds(data, p, [b])
    ensures NumAt(data, p, 1) == if b then 1 else 0
  {
    assert Ahead(data, p, 1) == [b];
    assert ValueOf([b]) == 2 * ValueOf([b][..0]) + (if b then 1 else 0);
  }

  // Decode a group n times over.
  method DecodeList(inp: Input, g: Grammar, str: string, i: nat, n: nat,
                    ghost body: seq<Op>, ghost elems: seq<Items>, ghost tail: string)
    returns (r: seq<Items>)
    requires i <= |str| && OpsOk(body) && str[i..] == "[" + (Text(body) + ("]" + tail))
    requires GrammarOk(g) && FitsAll(g, body, elems) && n == |elems|
    requires PlacedAll(g, body, elems, inp.Posn()) && Facing(inp, EncAll(g, body, elems, inp.Posn()))
    modifies inp`here, inp`worksp, inp`ibPtr, inp`ibSize, inp`readError, inp.inbuffer, inp.file`pos
    ensures r == elems
    ensures Passed(inp, old(inp.Posn()) + |old(EncAll(g, body, elems, inp.Posn()))|)
    decreases elems, 2
  {
    hide Holds, Enc, EncAll, Placed, PlacedAll, FitsAll, Fits, Text, GrammarOk, Remains, ByteAt;
    ghost var end := inp.Posn() + |EncAll(g, body, elems, inp.Posn())|;
    r := [];
    assert elems[0..] == elems;
    while |r| < n
      invariant |r| <= n && r == elems[..|r|] && FitsAll(g, body, elems[|r|..])
      invariant Facing(inp, EncAll(g, body, elems[|r|..], inp.Posn())) && inp.file.data == old(inp.file.data)
      invariant PlacedAll(g, body, elems[|r|..], inp.Posn())
      invariant inp.Posn() + |EncAll(g, body, elems[|r|..], inp.Posn())| == end
      decreases n - |r|
    {
      ghost var j, p := |r|, inp.Posn();
      NextElem(g, body, elems, j, p);
      ghost var b := Enc(g, body, elems[j].items, p);
      FacingNext(inp, p, b, EncAll(g, body, elems[j + 1..], p + |b|));
      var some := Decode(inp, g, str, i, true, body, elems[j].items, "]" + tail);
      FacingNext(inp, p, b, EncAll(g, body, elems[j + 1..], p + |b|));
      r := r + [Items(some)];
    }
    NextElem(g, body, elems, n, inp.Posn());
  }

  lemma NextElem(g: Grammar, body: seq<Op>, elems: seq<Items>, j: nat, p: nat)
    requires j <= |elems| && GrammarOk(g) && FitsAll(g, body, elems[j..])
    ensures j == |elems| ==> EncAll(g, body, elems[j..], p) == []
    ensures j < |elems| ==>
              && Fits(g, body, elems[j].items) && FitsAll(g, body, elems[j + 1..])
              && var b := Enc(g, body, elems[j].items, p);
                 && EncAll(g, body, elems[j..], p) == b + EncAll(g, body, elems[j + 1..], p + |b|)
                 && (PlacedAll(g, body, elems[j..], p) ==>
                       Placed(g, body, elems[j].items, p) && PlacedAll(g, body, elems[j + 1..], p + |b|))
  {
    hide Enc, Placed, Fits, GrammarOk;
    if j < |elems| {
      assert elems[j..][0] == elems[j] && elems[j..][1..] == elems[j + 1..];
    }
  }

  method DecodeLetter(inp: Input, g: Grammar, c: char, ghost item: Item) returns (r: Item)
    requires GrammarOk(g) && FitsLetter(g, c, item)
    requires PlacedLetter(g, c, item, inp.Posn()) && Facing(inp, EncLetter(g, c, item, inp.Posn()))
    modifies inp`here, inp`worksp, inp`ibPtr, inp`ibSize, inp`readError, inp.inbuffer, inp.file`pos
    ensures r == item
    ensures Passed(inp, old(inp.Posn()) + |old(EncLetter(g, c, item, inp.Posn()))|)
    decreases item, 0
  {
    hide Holds, Enc, Placed, Text, IntBits, CodeBits, CharBits, Remains, ByteAt, Pow2;
    ghost var p := inp.Posn();
    if c == 'i' {
      var n := ReadNum(inp, item.n);
      r := INum(n);
    } else if c == '$' {
      ghost var s1, s2, s3 := IntBits(item.size), IntBits(|item.chars|), CharBits(item.size, item.chars);
      ConcatAssoc(s1, s2, s3);
      FacingNext(inp, p, s1, s2 + s3);
      var size := ReadNum(inp, item.size);
      FacingNext(inp, p, s1, s2 + s3);
      FacingNext(inp, p + |s1|, s2, s3);
      var n := ReadNum(inp, |item.chars|);
      FacingNext(inp, p + |s1|, s2, s3);
      var chars := ReadChars(inp, size, n, item.chars);
      r := IStr(size, chars);
    } else {
      ghost var ops, code := g[c].table[item.code], CodeBits(g[c], item.code);
      ghost var body := Enc(g, ops, item.args, p + |code|);
      FacingNext(inp, p, code, body);
      var k := ReadCode(inp, g[c], item.code);
      FacingNext(inp, p, code, body);
      var str := Text(g[c].table[k]);
      assert str[0..] == "" + (str + "");
      var args := Decode(inp, g, str, 0, false, ops, item.args, "");
      r := ISort(c, k, args);
    }
  }
}
