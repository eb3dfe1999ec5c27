// Reading a construct with two cursors: de_solve_fn in disp/src/sort.c.
module Solve {
  import opened Bits
  import opened Codes
  import opened Files
  import opened Views
  import opened DispFile
  import opened DispBasic
  import opened Encodings
  import opened Runs
  import opened DecodeStrings

  // A1, C1, ..., An, Cn.
  function Interleave(aa: seq<Items>, cc: seq<Items>): seq<Items>
    requires |aa| == |cc|
  {
    if aa == [] then [] else [aa[0], cc[0]] + Interleave(aa[1..], cc[1..])
  }

  // A labelled construct as it is encoded: n, A1, ..., An, B, perhaps a second
  // number m, C1, ..., Cn.
  datatype Labelled = Labelled(aa: seq<Items>, b: Items, m: nat, cc: seq<Items>)

  datatype Strings = Strings(a: seq<Op>, b: seq<Op>, c: seq<Op>)

  predicate FitsLabelled(g: Grammar, ss: Strings, v: Labelled) {
    && OpsOk(ss.a) && OpsOk(ss.b) && OpsOk(ss.c) && |v.aa| == |v.cc|
    && FitsAll(g, ss.a, v.aa) && Fits(g, ss.b, v.b.items) && FitsAll(g, ss.c, v.cc)
  }

  function EncLabelled(g: Grammar, ss: Strings, v: Labelled, ntwice: bool, p: nat): seq<bool>
    requires GrammarOk(g) && FitsLabelled(g, ss, v)
  {
    var n := ListHead(|v.aa|);
    n + EncFromA(g, ss, v, ntwice, p + |n|)
  }

  function EncFromA(g: Grammar, ss: Strings, v: Labelled, ntwice: bool, p: nat): seq<bool>
    requires GrammarOk(g) && FitsLabelled(g, ss, v)
  {
    var a := EncAll(g, ss.a, v.aa, p);
    a + EncFromB(g, ss, v, ntwice, p + |a|)
  }

  function EncFromB(g: Grammar, ss: Strings, v: Labelled, ntwice: bool, p: nat): seq<bool>
    requires GrammarOk(g) && FitsLabelled(g, ss, v)
  {
    var b := Enc(g, ss.b, v.b.items, p);
    b + EncFromM(g, ss, v, ntwice, p + |b|)
  }

  function EncFromM(g: Grammar, ss: Strings, v: Labelled, ntwice: bool, p: nat): seq<bool>
    requires GrammarOk(g) && FitsLabelled(g, ss, v)
  {
    var m := if ntwice then ListHead(v.m) else [];
    m + EncAll(g, ss.c, v.cc, p + |m|)
  }

  // The bitstreams of all the parts are placed as they must be.
  predicate PlacedLabelled(g: Grammar, ss: Strings, v: Labelled, ntwice: bool, p: nat)
    requires GrammarOk(g) && FitsLabelled(g, ss, v)
  {
    PlacedFromA(g, ss, v, ntwice, p + |ListHead(|v.aa|)|)
  }

  predicate PlacedFromA(g: Grammar, ss: Strings, v: Labelled, ntwice: bool, p: nat)
    requires GrammarOk(g) && FitsLabelled(g, ss, v)
  {
    PlacedAll(g, ss.a, v.aa, p) && PlacedFromB(g, ss, v, ntwice, p + |EncAll(g, ss.a, v.aa, p)|)
  }

  predicate PlacedFromB(g: Grammar, ss: Strings, v: Labelled, ntwice: bool, p: nat)
    requires GrammarOk(g) && FitsLabelled(g, ss, v)
  {
    Placed(g, ss.b, v.b.items, p) && PlacedFromM(g, ss, v, ntwice, p + |Enc(g, ss.b, v.b.items, p)|)
  }

  predicate PlacedFromM(g: Grammar, ss: Strings, v: Labelled, ntwice: bool, p: nat)
    requires GrammarOk(g) && FitsLabelled(g, ss, v)
  {
    PlacedAll(g, ss.c, v.cc, p + if ntwice then |ListHead(v.m)| else 0)
  }

  // The first two parts of a labelled construct are encoded as a list and a value
  // of decode strings, and so is the third one if its number is given again.
  function FirstOps(ss: Strings): seq<Op> { [Group('*', ss.a)] + ss.b }

  function FirstItems(v: Labelled): seq<Item> { [IList(v.aa)] + v.b.items }

  lemma LabelledOnce(g: Grammar, ss: Strings, v: Labelled, ntwice: bool, p: nat)
    requires GrammarOk(g) && FitsLabelled(g, ss, v)
    ensures Fits(g, [Group('*', ss.a)] + ss.b, [IList(v.aa)] + v.b.items)
    ensures var first := Enc(g, [Group('*', ss.a)] + ss.b, [IList(v.aa)] + v.b.items, p);
            var m := if ntwice then ListHead(v.m) else [];
            && EncLabelled(g, ss, v, ntwice, p) == first + (m + EncAll(g, ss.c, v.cc, p + |first| + |m|))
            && (PlacedLabelled(g, ss, v, ntwice, p) <==>
                  && Placed(g, [Group('*', ss.a)] + ss.b, [IList(v.aa)] + v.b.items, p)
                  && PlacedAll(g, ss.c, v.cc, p + |first| + |m|))
  {
    hide GrammarOk, Fits, FitsAll, Enc, EncAll, Placed, PlacedAll, Meets, ListHead, OpsOk;
    FirstParts(g, ss, v, ntwice, p);
  }

  lemma LabelledTwice(g: Grammar, ss: Strings, v: Labelled, p: nat)
    requires GrammarOk(g) && FitsLabelled(g, ss, v) && v.m == |v.cc|
    ensures var ops := [Group('*', ss.a)] + ss.b + [Group('*', ss.c)];
            var items := [IList(v.aa)] + v.b.items + [IList(v.cc)];
            && Fits(g, ops, items)
            && EncLabelled(g, ss, v, true, p) == Enc(g, ops, items, p)
            && (PlacedLabelled(g, ss, v, true, p) <==> Placed(g, ops, items, p))
  {
    hide GrammarOk, Fits, FitsAll, Enc, EncAll, Placed, PlacedAll, Meets, MeetsAll, ListHead, OpsOk;
    FirstParts(g, ss, v, true, p);
    var op, item := Group('*', ss.c), IList(v.cc);
    var q := p + |Enc(g, FirstOps(ss), FirstItems(v), p)|;
    RunOne(g, op, item, q);
    RunConcat(g, FirstOps(ss), [op], FirstItems(v), [item], p);
  }

  lemma FirstParts(g: Grammar, ss: Strings, v: Labelled, ntwice: bool, p: nat)
    requires GrammarOk(g) && FitsLabelled(g, ss, v)
    ensures Fits(g, FirstOps(ss), FirstItems(v))
    ensures var first := Enc(g, FirstOps(ss), FirstItems(v), p);
            && EncLabelled(g, ss, v, ntwice, p) == first + EncFromM(g, ss, v, ntwice, p + |first|)
            && (PlacedLabelled(g, ss, v, ntwice, p) <==>
                  Placed(g, FirstOps(ss), FirstItems(v), p) && PlacedFromM(g, ss, v, ntwice, p + |first|))
  {
    hide GrammarOk, Fits, FitsAll, Enc, EncAll, Placed, PlacedAll, Meets, MeetsAll, ListHead, OpsOk,
         EncFromM, PlacedFromM;
    ItemThen(g, Group('*', ss.a), ss.b, IList(v.aa), v.b.items, p);
    var n := ListHead(|v.aa|);
    var a := EncAll(g, ss.a, v.aa, p + |n|);
    var b := Enc(g, ss.b, v.b.items, p + |n| + |a|);
    var m := EncFromM(g, ss, v, ntwice, p + |n| + |a| + |b|);
    ConcatAssoc(a, b, m);
    ConcatAssoc(n, a, b);
    ConcatAssoc(n, a + b, m);
  }

  // The pairs come out one behind the other.
  lemma {:induction false} InterleaveAt(aa: seq<Items>, cc: seq<Items>, i: nat)
    requires |aa| == |cc| && i < |aa|
    ensures |Interleave(aa, cc)| == 2 * |aa|
    ensures Interleave(aa, cc)[2 * i] == aa[i] && Interleave(aa, cc)[2 * i + 1] == cc[i]
    decreases |aa|
  {
    if |aa| > 1 { InterleaveAt(aa[1..], cc[1..], if i > 0 then i - 1 else 0); }
  }

  // The values aa lie at p, from the j-th one on, up to end.
  ghost predicate Lies(g: Grammar, data: seq<byte>, ops: seq<Op>, aa: seq<Items>, j: nat, p: nat, end: nat) {
    && GrammarOk(g) && j <= |aa| && FitsAll(g, ops, aa[j..]) && PlacedAll(g, ops, aa[j..], p)
    && var bits := EncAll(g, ops, aa[j..], p);
       p + |bits| == end <= 8 * |data| && Holds(data, p, bits)
  }

  lemma LiesNext(g: Grammar, data: seq<byte>, ops: seq<Op>, aa: seq<Items>, j: nat, p: nat, end: nat)
    requires Lies(g, data, ops, aa, j, p, end) && j < |aa|
    ensures GrammarOk(g) && Fits(g, ops, aa[j].items)
    ensures var b := Enc(g, ops, aa[j].items, p);
            && Placed(g, ops, aa[j].items, p)
            && p + |b| <= 8 * |data| && Holds(data, p, b) && Lies(g, data, ops, aa, j + 1, p + |b|, end)
  {
    hide Holds, Enc, EncAll, Placed, PlacedAll, Fits, FitsAll, GrammarOk;
    NextElem(g, ops, aa, j, p);
    var b := Enc(g, ops, aa[j].items, p);
    HoldsConcat(data, p, b, EncAll(g, ops, aa[j + 1..], p + |b|));
  }

  lemma LiesEnd(g: Grammar, data: seq<byte>, ops: seq<Op>, aa: seq<Items>, p: nat, end: nat)
    requires Lies(g, data, ops, aa, |aa|, p, end)
    ensures p == end
  {
    hide Enc, Placed, PlacedAll, Fits, Holds, GrammarOk;
    NextElem(g, ops, aa, |aa|, p);
  }

  // Decode one value that lies ahead; str is the text of ops.
  method DecodeOne(inp: Input, g: Grammar, str: string,
                   ghost ops: seq<Op>, ghost aa: seq<Items>, ghost j: nat, ghost end: nat)
    returns (r: Items)
    requires str == Text(ops) && OpsOk(ops) && j < |aa|
    requires inp.Valid() && !inp.readError && Lies(g, inp.file.data, ops, aa, j, inp.Posn(), end)
    modifies inp`here, inp`worksp, inp`ibPtr, inp`ibSize, inp`readError, inp.inbuffer, inp.file`pos
    ensures r == aa[j] && inp.Valid() && !inp.readError && inp.file.data == old(inp.file.data)
    ensures Lies(g, inp.file.data, ops, aa, j + 1, inp.Posn(), end)
  {
    hide Holds, Enc, EncAll, Placed, PlacedAll, Fits, FitsAll, GrammarOk, Text, OpsOk, Lies, ByteAt, Remains;
    LiesNext(g, inp.file.data, ops, aa, j, inp.Posn(), end);
    WholeText(str);
    var items := Decode(inp, g, str, 0, false, ops, aa[j].items, "");
    r := Items(items);
  }

  lemma WholeText(str: string)
    ensures str[0..] == "" + (str + "")
  {
  }

  // Return to a recorded place in the file.
  method GoTo(inp: Input, p: Place)
    requires inp.Valid() && !inp.readError && PlacePosn(p) <= 8 * |inp.file.data|
    modifies inp`here, inp`worksp, inp`ibPtr, inp`ibSize, inp`readError, inp.inbuffer, inp.file`pos
    ensures Passed(inp, PlacePosn(p))
  {
    inp.SetPlace(p);
  }

  // How many A there are.
  method ReadCount(inp: Input, ghost g: Grammar, ghost ss: Strings, ghost v: Labelled, ghost ntwice: bool)
    returns (n: nat)
    requires GrammarOk(g) && FitsLabelled(g, ss, v)
    requires PlacedLabelled(g, ss, v, ntwice, inp.Posn()) && Facing(inp, EncLabelled(g, ss, v, ntwice, inp.Posn()))
    modifies inp`here, inp`worksp, inp`ibPtr, inp`ibSize, inp`readError, inp.inbuffer, inp.file`pos
    ensures n == |v.aa| && inp.file.data == old(inp.file.data)
    ensures PlacedFromA(g, ss, v, ntwice, inp.Posn()) && Facing(inp, EncFromA(g, ss, v, ntwice, inp.Posn()))
    ensures inp.Posn() + |EncFromA(g, ss, v, ntwice, inp.Posn())|
            == old(inp.Posn()) + |old(EncLabelled(g, ss, v, ntwice, inp.Posn()))|
  {
    hide Holds, ListHead, EncFromA, PlacedFromA, FitsLabelled, GrammarOk, ByteAt, Remains;
    ghost var p, head := inp.Posn(), ListHead(|v.aa|);
    FacingNext(inp, p, head, EncFromA(g, ss, v, ntwice, p + |head|));
    var illegal;
    n, illegal := ReadLength(inp, |v.aa|);
    FacingNext(inp, p, head, EncFromA(g, ss, v, ntwice, p + |head|));
  }

  method DecodeB(inp: Input, g: Grammar, str: string, ghost ss: Strings, ghost v: Labelled, ghost ntwice: bool)
    returns (r: Items)
    requires GrammarOk(g) && FitsLabelled(g, ss, v) && str == Text(ss.b)
    requires PlacedFromB(g, ss, v, ntwice, inp.Posn()) && Facing(inp, EncFromB(g, ss, v, ntwice, inp.Posn()))
    modifies inp`here, inp`worksp, inp`ibPtr, inp`ibSize, inp`readError, inp.inbuffer, inp.file`pos
    ensures r == v.b && inp.file.data == old(inp.file.data)
    ensures PlacedFromM(g, ss, v, ntwice, inp.Posn()) && Facing(inp, EncFromM(g, ss, v, ntwice, inp.Posn()))
    ensures inp.Posn() + |EncFromM(g, ss, v, ntwice, inp.Posn())|
            == old(inp.Posn()) + |old(EncFromB(g, ss, v, ntwice, inp.Posn()))|
  {
    hide Holds, EncFromM, PlacedFromM, Enc, Placed, Fits, FitsAll, Text, OpsOk, GrammarOk, ByteAt, Remains;
    ghost var p := inp.Posn();
    ghost var b := Enc(g, ss.b, v.b.items, p);
    FacingNext(inp, p, b, EncFromM(g, ss, v, ntwice, p + |b|));
    WholeText(str);
    var items := Decode(inp, g, str, 0, false, ss.b, v.b.items, "");
    FacingNext(inp, p, b, EncFromM(g, ss, v, ntwice, p + |b|));
    r := Items(items);
  }

  // How many C there are, if that is given again.
  method ReadAgain(inp: Input, ghost g: Grammar, ghost ss: Strings, ghost v: Labelled, ntwice: bool, n: nat)
    returns (m: nat)
    requires GrammarOk(g) && FitsLabelled(g, ss, v)
    requires PlacedFromM(g, ss, v, ntwice, inp.Posn()) && Facing(inp, EncFromM(g, ss, v, ntwice, inp.Posn()))
    modifies inp`here, inp`worksp, inp`ibPtr, inp`ibSize, inp`readError, inp.inbuffer, inp.file`pos
    ensures m == if ntwice then v.m else n
    ensures inp.file.data == old(inp.file.data)
    ensures PlacedAll(g, ss.c, v.cc, inp.Posn()) && Facing(inp, EncAll(g, ss.c, v.cc, inp.Posn()))
    ensures inp.Posn() + |EncAll(g, ss.c, v.cc, inp.Posn())|
            == old(inp.Posn()) + |old(EncFromM(g, ss, v, ntwice, inp.Posn()))|
  {
    hide Holds, ListHead, Enc, EncAll, Placed, PlacedAll, Fits, FitsAll, OpsOk, GrammarOk, ByteAt, Remains;
    ghost var p, head := inp.Posn(), if ntwice then ListHead(v.m) else [];
    ghost var cc := EncAll(g, ss.c, v.cc, p + |head|);
    FacingNext(inp, p, head, cc);
    m := n;
    if ntwice {
      var illegal;
      m, illegal := ReadLength(inp, v.m);
      FacingNext(inp, p, head, cc);
    } else {
      assert [] + cc == cc;
    }
  }

  // Pass over every A; nothing is kept of them.
  method StepOver(inp: Input, g: Grammar, str: string, n: nat, ghost ss: Strings, ghost v: Labelled, ghost ntwice: bool)
    returns (ghost endA: nat)
    requires GrammarOk(g) && FitsLabelled(g, ss, v) && str == Text(ss.a) && n == |v.aa|
    requires PlacedFromA(g, ss, v, ntwice, inp.Posn()) && Facing(inp, EncFromA(g, ss, v, ntwice, inp.Posn()))
    modifies inp`here, inp`worksp, inp`ibPtr, inp`ibSize, inp`readError, inp.inbuffer, inp.file`pos
    ensures inp.file.data == old(inp.file.data)
    ensures Lies(g, inp.file.data, ss.a, v.aa, 0, old(inp.Posn()), endA)
    ensures PlacedFromB(g, ss, v, ntwice, inp.Posn()) && Facing(inp, EncFromB(g, ss, v, ntwice, inp.Posn()))
    ensures inp.Posn() + |EncFromB(g, ss, v, ntwice, inp.Posn())|
            == old(inp.Posn()) + |old(EncFromA(g, ss, v, ntwice, inp.Posn()))|
  {
    hide Holds, Enc, EncAll, Placed, PlacedAll, Fits, FitsAll, GrammarOk, Text, OpsOk, Lies, ByteAt, Remains,
         EncFromB, PlacedFromB;
    ghost var p, data := inp.Posn(), inp.file.data;
    ghost var a := EncAll(g, ss.a, v.aa, p);
    endA := p + |a|;
    FacingNext(inp, p, a, EncFromB(g, ss, v, ntwice, endA));
    FacingLies(inp, g, ss.a, v.aa);
    var i := 0;
    while i < n
      invariant i <= n && inp.Valid() && !inp.readError && inp.file.data == data
      invariant Lies(g, data, ss.a, v.aa, i, inp.Posn(), endA)
    {
      var _ := DecodeOne(inp, g, str, ss.a, v.aa, i, endA);
      i := i + 1;
    }
    LiesEnd(g, data, ss.a, v.aa, inp.Posn(), endA);
    FacingNext(inp, p, a, EncFromB(g, ss, v, ntwice, endA));
  }

  // Read A1, C1, ..., An, Cn, going back for every Ai and forward for every Ci.
  method ReadPairs(inp: Input, g: Grammar, str1: string, str3: string, n: nat, start: Place, shown: bool,
                   ghost ss: Strings, ghost v: Labelled, ghost endA: nat, ghost end: nat)
    returns (out: seq<Items>)
    requires GrammarOk(g) && FitsLabelled(g, ss, v) && str1 == Text(ss.a) && str3 == Text(ss.c) && n == |v.aa|
    requires inp.Valid() && !inp.readError
    requires Lies(g, inp.file.data, ss.a, v.aa, 0, PlacePosn(start), endA)
    requires Lies(g, inp.file.data, ss.c, v.cc, 0, inp.Posn(), end)
    modifies inp`here, inp`worksp, inp`ibPtr, inp`ibSize, inp`readError, inp.inbuffer, inp.file`pos
    ensures out == if shown then Interleave(v.aa, v.cc) else []
    ensures Passed(inp, end)
  {
    hide Holds, Enc, EncAll, Placed, PlacedAll, Fits, FitsAll, GrammarOk, Text, OpsOk, Lies, ByteAt, Remains,
         Interleave;
    ghost var data := inp.file.data;
    var posn1, i := start, 0;
    out := [];
    NoPairs(v.aa, v.cc);
    while i < n
      invariant i <= n && inp.Valid() && !inp.readError && inp.file.data == data
      invariant out == if shown then Interleave(v.aa[..i], v.cc[..i]) else []
      invariant Lies(g, data, ss.a, v.aa, i, PlacePosn(posn1), endA)
      invariant Lies(g, data, ss.c, v.cc, i, inp.Posn(), end)
    {
      // C number i starts here.
      var posn2 := inp.here;
      LiesWithin(g, data, ss.a, v.aa, i, PlacePosn(posn1), endA);
      LiesWithin(g, data, ss.c, v.cc, i, PlacePosn(posn2), end);
      // The A that belongs to it was passed over before.
      GoTo(inp, posn1);
      var a := DecodeOne(inp, g, str1, ss.a, v.aa, i, endA);
      // The A after that starts here.
      posn1 := inp.here;
      // Behind the C that was read last.
      GoTo(inp, posn2);
      var c := DecodeOne(inp, g, str3, ss.c, v.cc, i, end);
      if shown { out := out + [a, c]; }
      MorePairs(v.aa, v.cc, i);
      i := i + 1;
    }
    LiesEnd(g, data, ss.c, v.cc, inp.Posn(), end);
    NoPairs(v.aa, v.cc);
  }

  lemma LiesWithin(g: Grammar, data: seq<byte>, ops: seq<Op>, aa: seq<Items>, j: nat, p: nat, end: nat)
    requires Lies(g, data, ops, aa, j, p, end)
    ensures p <= 8 * |data|
  {
    hide Holds, EncAll, PlacedAll, FitsAll, GrammarOk;
  }

  lemma NoPairs(aa: seq<Items>, cc: seq<Items>)
    requires |aa| == |cc|
    ensures Interleave(aa[..0], cc[..0]) == [] && aa[..|aa|] == aa && cc[..|cc|] == cc
  {
  }

  lemma {:induction false} MorePairs(aa: seq<Items>, cc: seq<Items>, i: nat)
    requires |aa| == |cc| && i < |aa|
    ensures Interleave(aa[..i + 1], cc[..i + 1]) == Interleave(aa[..i], cc[..i]) + [aa[i], cc[i]]
    decreases i
  {
    var a, c := aa[..i + 1], cc[..i + 1];
    assert Interleave(a, c) == [aa[0], cc[0]] + Interleave(a[1..], c[1..]);
    if i == 0 {
    } else {
      assert a[1..] == aa[1..][..i] && c[1..] == cc[1..][..i];
      MorePairs(aa[1..], cc[1..], i - 1);
      assert aa[..i][1..] == aa[1..][..i - 1] && cc[..i][1..] == cc[1..][..i - 1];
      ConcatAssoc([aa[0], cc[0]], Interleave(aa[1..][..i - 1], cc[1..][..i - 1]), [aa[i], cc[i]]);
    }
  }

  // Decode a labelled construct.  What is read while nothing is shown is
  // not output; without recovery a wrong second count is the end.
  method DeSolve(inp: Input, g: Grammar, str1: string, str2: string, str3: string, ntwice: bool,
                 shown: bool, recover: bool, ghost ss: Strings, ghost v: Labelled)
    returns (out: seq<Items>, illegal: bool)
    requires str1 == Text(ss.a) && str2 == Text(ss.b) && str3 == Text(ss.c)
    requires GrammarOk(g) && FitsLabelled(g, ss, v)
    requires PlacedLabelled(g, ss, v, ntwice, inp.Posn()) && Facing(inp, EncLabelled(g, ss, v, ntwice, inp.Posn()))
    modifies inp`here, inp`worksp, inp`ibPtr, inp`ibSize, inp`readError, inp.inbuffer, inp.file`pos
    ensures illegal <==> ntwice && v.m != |v.aa|
    ensures !shown ==> out == []
    ensures shown && illegal && !recover ==> out == [v.b]
    ensures shown && (!illegal || recover) ==> out == [v.b] + Interleave(v.aa, v.cc)
    ensures !illegal || recover ==>
              Passed(inp, old(inp.Posn()) + |old(EncLabelled(g, ss, v, ntwice, inp.Posn()))|)
  {
    hide Holds, Enc, EncAll, Placed, PlacedAll, Fits, FitsAll, GrammarOk, Text, OpsOk, Lies, ByteAt, Remains, ListHead,
         Interleave, EncLabelled, EncFromA, EncFromB, EncFromM,
         PlacedLabelled, PlacedFromA, PlacedFromB, PlacedFromM, Facing;
    ghost var data, end := inp.file.data, inp.Posn() + |EncLabelled(g, ss, v, ntwice, inp.Posn())|;
    out := [];
    var n := ReadCount(inp, g, ss, v, ntwice);
    // Where the first A starts.
    var posn1 := inp.here;
    // The A come out later, each in front of its C.
    var endA := StepOver(inp, g, str1, n, ss, v, ntwice);
    // B comes out first.
    var b := DecodeB(inp, g, str2, ss, v, ntwice);
    if shown { out := [b]; }
    // The second number should be the first one.
    var m := ReadAgain(inp, g, ss, v, ntwice, n);
    illegal := m != n;
    if illegal && !recover { return; }
    FacingLies(inp, g, ss.c, v.cc);
    var rest := ReadPairs(inp, g, str1, str3, n, posn1, shown, ss, v, endA, end);
    out := out + rest;
  }

  lemma FacingLies(inp: Input, g: Grammar, ops: seq<Op>, aa: seq<Items>)
    requires GrammarOk(g) && FitsAll(g, ops, aa)
    requires PlacedAll(g, ops, aa, inp.Posn()) && Facing(inp, EncAll(g, ops, aa, inp.Posn()))
    ensures Lies(g, inp.file.data, ops, aa, 0, inp.Posn(), inp.Posn() + |EncAll(g, ops, aa, inp.Posn())|)
    ensures inp.Valid() && !inp.readError
  {
    hide Holds, EncAll, PlacedAll, FitsAll, GrammarOk;
    assert aa[0..] == aa;
  }
}
