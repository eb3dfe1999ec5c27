// The body of a unit, read or skipped: de_equation in disp/src/capsule.c.
module UnitBody {
  import opened Bits
  import opened Codes
  import opened Files
  import opened Views
  import opened DispFile
  import opened DispBasic
  import opened Encodings
  import opened DecodeStrings

  // The aligned bits of a unit's contents, which start on a byte boundary.
  function BodyBits(g: Grammar, ops: seq<Op>, items: seq<Item>, p: nat): seq<bool>
    requires GrammarOk(g) && Fits(g, ops, items)
  {
    var b := Enc(g, ops, items, p);
    b + Zeros(PadTo8(p + |b|))
  }

  // A body at position p: its length in bytes, an alignment, its contents.  The
  // length is given; it is right if the contents have that many bytes.
  function UnitBits(g: Grammar, ops: seq<Op>, items: seq<Item>, len: nat, p: nat): seq<bool>
    requires GrammarOk(g) && Fits(g, ops, items)
  {
    var n := IntBits(len);
    n + AlignedBody(g, ops, items, p + |n|)
  }

  function AlignedBody(g: Grammar, ops: seq<Op>, items: seq<Item>, p: nat): seq<bool>
    requires GrammarOk(g) && Fits(g, ops, items)
  {
    Zeros(PadTo8(p)) + BodyBits(g, ops, items, p + PadTo8(p))
  }

  // Read the length and align; then either skip that many bytes or decode the
  // contents and align.  With the right length both end at the same place; a wrong
  // one is noticed when decoding, and only then.
  method ReadBody(inp: Input, g: Grammar, str: string, skip: bool,
                  ghost ops: seq<Op>, ghost items: seq<Item>, ghost len: nat)
    returns (out: seq<Item>, wrong: bool)
    requires str == Text(ops) && GrammarOk(g) && OpsOk(ops) && Fits(g, ops, items)
    requires !skip ==> var p: nat := inp.Posn() + |IntBits(len)|; Placed(g, ops, items, p + PadTo8(p))
    requires Facing(inp, UnitBits(g, ops, items, len, inp.Posn()))
    modifies inp`here, inp`worksp, inp`ibPtr, inp`ibSize, inp`readError, inp.inbuffer, inp.file`pos
    ensures var p: nat := old(inp.Posn()) + |IntBits(len)|;
            var start := p + PadTo8(p);
            var right := 8 * len == |BodyBits(g, ops, items, start)|;
            && (right || !skip ==> Passed(inp, start + |BodyBits(g, ops, items, start)|))
            && out == (if skip then [] else items)
            && (wrong <==> !skip && !right)
            && (skip ==> inp.Cur() == AfterSkip(inp.file.data, Cursor(start, false), CHAR_BIT * len))
            && inp.Valid() && inp.file.data == old(inp.file.data)
  {
    hide Holds, Enc, Placed, Text, Fits, GrammarOk, OpsOk, IntBits, Zeros, PadTo8, ByteAt, Remains, BodyBits;
    ghost var p0 := inp.Posn();
    FacingNext(inp, p0, IntBits(len), AlignedBody(g, ops, items, p0 + |IntBits(len)|));
    var n := ReadNum(inp, len);
    n := CHAR_BIT * n;
    FacingNext(inp, p0, IntBits(len), AlignedBody(g, ops, items, p0 + |IntBits(len)|));
    ghost var p := inp.Posn();
    ghost var start := p + PadTo8(p);
    FacingNext(inp, p, Zeros(PadTo8(p)), BodyBits(g, ops, items, start));
    inp.ByteAlign();
    FacingNext(inp, p, Zeros(PadTo8(p)), BodyBits(g, ops, items, start));
    out, wrong := [], false;
    if skip {
      SkipInside(inp.file.data, start, n);
      inp.SkipBits(n);
    } else {
      var end := inp.Posn() + n;
      out := DecodeBody(inp, g, str, ops, items);
      if inp.Posn() != end { wrong := true; }
    }
  }

  method DecodeBody(inp: Input, g: Grammar, str: string, ghost ops: seq<Op>, ghost items: seq<Item>)
    returns (out: seq<Item>)
    requires str == Text(ops) && GrammarOk(g) && OpsOk(ops) && Fits(g, ops, items)
    requires Placed(g, ops, items, inp.Posn()) && Facing(inp, BodyBits(g, ops, items, inp.Posn()))
    modifies inp`here, inp`worksp, inp`ibPtr, inp`ibSize, inp`readError, inp.inbuffer, inp.file`pos
    ensures out == items && Passed(inp, old(inp.Posn()) + |old(BodyBits(g, ops, items, inp.Posn()))|)
  {
    hide Holds, Enc, Placed, Text, Fits, GrammarOk, OpsOk, Zeros, PadTo8, ByteAt, Remains;
    ghost var p := inp.Posn();
    ghost var b := Enc(g, ops, items, p);
    FacingNext(inp, p, b, Zeros(PadTo8(p + |b|)));
    assert str[0..] == "" + (str + "");
    out := Decode(inp, g, str, 0, false, ops, items, "");
    inp.ByteAlign();
  }

  // From a byte boundary the contents are whole bytes, so there is a right length.
  lemma BodyWhole(g: Grammar, ops: seq<Op>, items: seq<Item>, p: nat)
    requires GrammarOk(g) && Fits(g, ops, items) && p % 8 == 0
    ensures |BodyBits(g, ops, items, p)| % 8 == 0
  {
    hide Enc, Fits, GrammarOk;
    PadIs(p + |Enc(g, ops, items, p)|);
  }
}
