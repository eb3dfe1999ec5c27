// The arguments of a token application, decoded or stepped over: the end of
// de_token_aux in disp/src/sort.c.
module TokenArgs {
  import opened Bits
  import opened Codes
  import opened Files
  import opened Views
  import opened DispFile
  import opened DispBasic
  import opened Encodings
  import opened Alignment
  import opened Runs
  import opened DecodeStrings

  // The arguments may be decoded where they are to start.
  predicate Readable(g: Grammar, ops: seq<Op>, items: seq<Item>, p: nat)
    requires GrammarOk(g) && Fits(g, ops, items)
  {
    (p % 8 == 0 || !Meets(g, ops, items)) && Placed(g, ops, items, p)
  }

  // What is known of a token: nothing, that it has no arguments, or their sorts.
  datatype Declaration =
    | Undeclared
    | Plain(foreign: bool)
    | WithSorts(sorts: string, foreign: bool)
  {
    // The arguments are decoded.
    predicate Decodes() { WithSorts? && !foreign }

    // They are stepped over by their length.
    predicate Steps() { Undeclared? || foreign }
  }

  // The arguments of a token behind their length in bits.  The length is given: if
  // they are decoded it is reported wrong just when it is.
  method ReadArgs(inp: Input, g: Grammar, d: Declaration, ghost ops: seq<Op>, ghost items: seq<Item>, ghost len: nat)
    returns (out: seq<Item>, missing: bool, wrong: bool)
    requires GrammarOk(g) && OpsOk(ops) && Fits(g, ops, items) && (d.WithSorts? ==> d.sorts == Text(ops))
    requires d.Decodes() ==> Readable(g, ops, items, inp.Posn() + |IntBits(len)|)
    requires d.Decodes() ==> Facing(inp, IntBits(len) + Enc(g, ops, items, 0))
    requires Facing(inp, IntBits(len))
    requires d.Steps() ==> inp.Posn() + |IntBits(len)| + len <= 8 * |inp.file.data|
    modifies inp`here, inp`worksp, inp`ibPtr, inp`ibSize, inp`readError, inp.inbuffer, inp.file`pos
    ensures out == if d.WithSorts? && !d.foreign && len > 0 then items else []
    ensures missing <==> len == 0 && d.WithSorts? && d.sorts != ""
    ensures wrong <==> d.WithSorts? && !d.foreign && 0 < len != |Enc(g, ops, items, 0)|
    ensures Passed(inp, old(inp.Posn()) + |IntBits(len)|
                        + if len == 0 || d == Plain(false) then 0
                          else if d.Undeclared? || d.foreign then len
                          else |Enc(g, ops, items, 0)|)
  {
    hide Holds, Enc, Meets, Placed, Text, Fits, GrammarOk, OpsOk, IntBits, ByteAt, Remains;
    ghost var p, b := inp.Posn(), Enc(g, ops, items, 0);
    if d.Decodes() {
      FacingNext(inp, p, IntBits(len), b);
    }
    var bits := ReadNum(inp, len);
    out, missing, wrong := [], false, false;
    if bits == 0 {
      missing := d.WithSorts? && d.sorts != "";
      return;
    }
    if !d.Steps() {
      if d.WithSorts? {
        FacingNext(inp, p, IntBits(len), b);
        EncSame(g, ops, items, 0, inp.Posn());
        var from := inp.Posn();
        assert d.sorts[0..] == "" + (d.sorts + "");
        out := Decode(inp, g, d.sorts, 0, false, ops, items, "");
        wrong := from + bits != inp.Posn();
      }
    } else {
      SkipInside(inp.file.data, inp.Posn(), bits);
      inp.SkipBits(bits);
    }
  }
}
