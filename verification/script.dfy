// Whole files: a script of writes, ended by end_bitstream, against the matching
// script of reads by the libtdf and the disp readers.
module Script {
  import opened Bits
  import opened Codes
  import opened Files
  import opened Views
  import opened Bitstreams
  import opened Decode
  import opened DispFile
  import opened DispBasic

  // One write.
  datatype Item =
    | Fixed(n: nat, d: nat)
    | Long(n: nat, d: nat)
    | Int(n: nat)
    | Extn(k: nat, d: nat)
    | Bytes(s: seq<byte>)
    | Boundary
  {
    predicate Ok() {
      match this
      case Fixed(n, d) => n <= 16 && d < Pow2(n)
      case Long(n, d) => n <= 32 && d < Pow2(n)
      case Extn(k, d) => 1 <= k <= 16 && d >= 1
      case _ => true
    }

    // What is known to a reader beforehand.
    function Shape(): Item {
      match this
      case Fixed(n, _) => Fixed(n, 0)
      case Long(n, _) => Long(n, 0)
      case Int(_) => Int(0)
      case Extn(k, _) => Extn(k, 1)
      case Bytes(s) => Bytes(seq(|s|, i => 0 as byte))
      case Boundary => Boundary
    }
  }

  predicate AllOk(items: seq<Item>) {
    forall i :: 0 <= i < |items| ==> items[i].Ok()
  }

  function Shapes(items: seq<Item>): (r: seq<Item>)
    ensures |r| == |items|
  {
    seq(|items|, i requires 0 <= i < |items| => items[i].Shape())
  }

  // The bits of an item written at position p of a stream.
  function ItemBits(item: Item, p: nat): seq<bool>
    requires item.Ok()
  {
    match item
    case Fixed(n, d) => BitsOf(n, d)
    case Long(n, d) => BitsOf(n, d)
    case Int(n) => IntBits(n)
    case Extn(k, d) => ExtnBits(k, d)
    case Bytes(s) => BytesBits(s)
    case Boundary => Zeros(PadTo8(p))
  }

  function ScriptBits(items: seq<Item>, p: nat): seq<bool>
    requires AllOk(items)
  {
    if items == [] then []
    else
      var b := ItemBits(items[0], p);
      b + ScriptBits(items[1..], p + |b|)
  }

  // ----- what the reads mean

  function BytesAt(data: seq<byte>, p: nat, n: nat): (s: seq<byte>)
    ensures |s| == n
    decreases n
  {
    if n == 0 then []
    else
      ValueBound(Ahead(data, p, 8));
      assert Pow2(8) == 256;
      [NumAt(data, p, 8)] + BytesAt(data, p + 8, n - 1)
  }

  // Read an item of a given shape at position p, and the position after it.
  function ItemAt(data: seq<byte>, p: nat, shape: Item): (Item, nat)
    requires shape.Ok()
  {
    match shape
    case Fixed(n, _) => (Fixed(n, NumAt(data, p, n)), p + n)
    case Long(n, _) => (Long(n, NumAt(data, p, n)), p + n)
    case Int(_) => (Int(IntAt(data, p, 0).0), IntAt(data, p, 0).1)
    case Extn(k, _) => (Extn(k, ExtnAt(data, p, k, 0).0), ExtnAt(data, p, k, 0).1)
    case Bytes(s) => (Bytes(BytesAt(data, p, |s|)), p + 8 * |s|)
    case Boundary => (Boundary, p + PadTo8(p))
  }

  lemma {:induction false} BytesInvert(data: seq<byte>, p: nat, s: seq<byte>)
    requires Holds(data, p, BytesBits(s))
    ensures BytesAt(data, p, |s|) == s
    decreases |s|
  {
    hide Holds, BytesBits, NumAt;
    if s != [] {
      assert s == s[..1] + s[1..] && s[..1] == [s[0]];
      BytesBitsConcat(s[..1], s[1..]);
      BytesBitsOne(s[0]);
      HoldsConcat(data, p, BitsOf(8, s[0]), BytesBits(s[1..]));
      ByteBound(s[0]);
      HoldsNum(data, p, 8, s[0]);
      BytesInvert(data, p + 8, s[1..]);
    }
  }

  // Reading an item back recovers it and stops at its end.
  lemma ItemInverts(data: seq<byte>, p: nat, item: Item)
    requires item.Ok() && Holds(data, p, ItemBits(item, p))
    ensures item.Shape().Ok()
    ensures ItemAt(data, p, item.Shape()) == (item, p + |ItemBits(item, p)|)
  {
    hide Holds, NumAt, IntAt, ExtnAt, BytesAt, BytesBits, IntBits, ExtnBits, BitsOf, PadTo8;
    match item
    case Fixed(n, d) => HoldsNum(data, p, n, d);
    case Long(n, d) => HoldsNum(data, p, n, d);
    case Int(n) => IntInverts(data, p, n);
    case Extn(k, d) => ExtnInverts(data, p, k, d, 0);
    case Bytes(s) => BytesInvert(data, p, s);
    case Boundary =>
  }

  // ----- writing

  method WriteItem(lib: Library, bs: Bitstream, item: Item) returns (r: Bitstream)
    requires lib.Live(bs) && item.Ok()
    modifies lib, lib.freeRepr, bs.repr, bs.file
    ensures lib.Grown(bs, r)
    ensures r.Content() == old(bs.Content()) + ItemBits(item, |old(bs.Content())|)
  {
    hide Linked, Memory, ChainBits, Objs, BytesBits, BitsOf, Pow2, IntBits, ExtnBits, PadTo8,
         Bitstream.Content, Bitstream.Upto;
    match item
    case Fixed(n, d) => r := lib.EncBits(bs, n, d);
    case Long(n, d) => r := lib.EncLongBits(bs, n, d);
    case Int(n) => r := lib.EncInt(bs, n);
    case Extn(k, d) => r := lib.EncExtn(bs, k, d);
    case Bytes(s) => r := lib.EncBytes(bs, s);
    case Boundary => r := lib.EncBoundary(bs);
  }

  // Write a script to an empty file and close it.
  method WriteScript(lib: Library, f: File, items: seq<Item>)
    requires lib.Valid() && AllOk(items) && f.data == []
    modifies lib, lib.freeRepr, f
    ensures lib.Valid()
    ensures var s := ScriptBits(items, 0);
            BytesBits(f.data) == s + Zeros(PadTo8(|s|))
  {
    hide Linked, Memory, ChainBits, Objs, BytesBits, ScriptBits, ItemBits, PadTo8, Zeros, Item.Ok,
         Bitstream.Content, Bitstream.Upto;
    ObjsTyped(lib.free);
    var bs := lib.StartBitstream(f);
    NoBytes([]);
    ghost var done := [];
    var i := 0;
    while i < |items|
      invariant i <= |items| && lib.Live(bs) && bs.file == f
      invariant lib.freeRepr <= old(lib.freeRepr) && fresh(bs.repr - old(lib.freeRepr))
      invariant bs.Content() == done
      invariant done + ScriptBits(items[i..], |done|) == ScriptBits(items, 0)
    {
      ScriptStep(items, i, done);
      done := done + ItemBits(items[i], |done|);
      bs := WriteItem(lib, bs, items[i]);
      i := i + 1;
    }
    ScriptEnd(items, done);
    lib.EndBitstream(bs, true);
  }

  lemma ScriptStep(items: seq<Item>, i: nat, done: seq<bool>)
    requires AllOk(items) && i < |items|
    ensures items[i].Ok()
    ensures var b := ItemBits(items[i], |done|);
            done + ScriptBits(items[i..], |done|)
            == (done + b) + ScriptBits(items[i + 1..], |done + b|)
  {
    hide ItemBits;
    var b := ItemBits(items[i], |done|);
    assert items[i..][1..] == items[i + 1..];
    ConcatAssoc(done, b, ScriptBits(items[i + 1..], |done + b|));
  }

  lemma ScriptEnd(items: seq<Item>, done: seq<bool>)
    ensures done + ScriptBits(items[|items|..], |done|) == done
  {
  }

  // ----- reading

  method ReadItemTdf(bs: Bitstream, shape: Item) returns (item: Item)
    requires Reading(bs) && shape.Ok() && !shape.Extn?
    modifies bs`size, bs`base, bs`bytes, bs`bits, bs.text, bs.file`pos
    ensures var (it, p) := ItemAt(bs.file.data, old(Posn(bs)), shape);
            item == it && ReadTo(bs, p)
  {
    hide NumAt, IntAt, BytesAt, Pow2, PadTo8, ByteAt;
    match shape
    case Fixed(n, _) =>
      var d := DeBits(bs, n);
      item := Fixed(n, d);
    case Long(n, _) =>
      var d := DeLongBits(bs, n);
      item := Long(n, d);
    case Int(_) =>
      var n := DeInt(bs);
      item := Int(n);
    case Bytes(s) =>
      var t := ReadBytesTdf(bs, |s|);
      item := Bytes(t);
    case Boundary =>
      DeBoundary(bs);
      item := Boundary;
  }

  method ReadBytesTdf(bs: Bitstream, n: nat) returns (s: seq<byte>)
    requires Reading(bs)
    modifies bs`size, bs`base, bs`bytes, bs`bits, bs.text, bs.file`pos
    ensures s == BytesAt(bs.file.data, old(Posn(bs)), n)
    ensures ReadTo(bs, old(Posn(bs)) + 8 * n)
  {
    hide NumAt, ByteAt;
    ghost var data, p := bs.file.data, Posn(bs);
    s := [];
    var i := 0;
    while i < n
      invariant i <= n && ReadTo(bs, p + 8 * i) && bs.file == old(bs.file)
      invariant s + BytesAt(data, p + 8 * i, n - i) == BytesAt(data, p, n)
    {
      var c := DeBits(bs, 8);
      ByteRead(data, p + 8 * i);
      s := s + [c];
      i := i + 1;
    }
  }

  lemma ByteRead(data: seq<byte>, p: nat)
    ensures NumAt(data, p, 8) < 256
  {
    ValueBound(Ahead(data, p, 8));
    assert Pow2(8) == 256;
  }

  method ReadItemDisp(inp: Input, shape: Item) returns (item: Item)
    requires inp.Valid() && !inp.readError && shape.Ok()
    requires ItemAt(inp.file.data, inp.Posn(), shape).1 <= 8 * |inp.file.data|
    modifies inp`here, inp`worksp, inp`ibPtr, inp`ibSize, inp`readError, inp.inbuffer, inp.file`pos
    ensures inp.Valid() && !inp.readError
    ensures (item, inp.Posn()) == ItemAt(inp.file.data, old(inp.Posn()), shape)
  {
    hide NumAt, IntAt, ExtnAt, BytesAt, Pow2, PadTo8, ByteAt, Remains;
    match shape
    case Fixed(n, _) =>
      var d := inp.Fetch(n);
      item := Fixed(n, d);
    case Long(n, _) =>
      var d := inp.Fetch(n);
      item := Long(n, d);
    case Int(_) =>
      var n := TdfInt(inp);
      item := Int(n);
    case Extn(k, _) =>
      var d := FetchExtn(inp, k);
      item := Extn(k, d);
    case Bytes(s) =>
      var t := ReadBytesDisp(inp, |s|);
      item := Bytes(t);
    case Boundary =>
      inp.ByteAlign();
      item := Boundary;
  }

  method ReadBytesDisp(inp: Input, n: nat) returns (s: seq<byte>)
    requires inp.Valid() && !inp.readError && inp.Posn() + 8 * n <= 8 * |inp.file.data|
    modifies inp`here, inp`worksp, inp`ibPtr, inp`ibSize, inp`readError, inp.inbuffer, inp.file`pos
    ensures inp.Valid() && !inp.readError && inp.Posn() == old(inp.Posn()) + 8 * n
    ensures s == BytesAt(inp.file.data, old(inp.Posn()), n)
  {
    hide NumAt, ByteAt, Remains;
    ghost var data, p := inp.file.data, inp.Posn();
    s := [];
    var i := 0;
    while i < n
      invariant i <= n && inp.Valid() && !inp.readError && inp.Posn() == p + 8 * i
      invariant s + BytesAt(data, p + 8 * i, n - i) == BytesAt(data, p, n)
    {
      var c := inp.Fetch(8);
      ByteRead(data, p + 8 * i);
      s := s + [c];
      i := i + 1;
    }
  }

  // ----- round trip

  // Write a script, then read the file, knowing only its shape, with both readers: every value comes
  // back, in order.  libtdf itself has no reader for extended numbers.
  method RoundTrip(items: seq<Item>) returns (viaDisp: seq<Item>, viaTdf: seq<Item>)
    requires AllOk(items)
    ensures viaDisp == items
    ensures (forall i :: 0 <= i < |items| ==> !items[i].Extn?) ==> viaTdf == items
  {
    var lib := new Library();
    var f := new File([]);
    WriteScript(lib, f, items);
    viaDisp := ReadDisp(f.data, Shapes(items), items);
    viaTdf := [];
    if forall i :: 0 <= i < |items| ==> !items[i].Extn? {
      viaTdf := ReadTdf(f.data, Shapes(items), items);
    }
  }

  // The rest of a written file, seen from the end of its first items.
  lemma WrittenAhead(data: seq<byte>, items: seq<Item>, i: nat, done: seq<bool>)
    requires AllOk(items) && i < |items|
    requires var s := ScriptBits(items, 0); BytesBits(data) == s + Zeros(PadTo8(|s|))
    requires done + ScriptBits(items[i..], |done|) == ScriptBits(items, 0)
    ensures items[i].Ok() && items[i].Shape().Ok()
    ensures var b := ItemBits(items[i], |done|);
            && ItemAt(data, |done|, items[i].Shape()) == (items[i], |done + b|)
            && |done + b| <= 8 * |data|
            && (done + b) + ScriptBits(items[i + 1..], |done + b|) == ScriptBits(items, 0)
  {
    hide ScriptBits, ItemBits, ItemAt, BytesBits, Zeros, PadTo8, Item.Ok, Ahead;
    ScriptStep(items, i, done);
    var b := ItemBits(items[i], |done|);
    var s := ScriptBits(items, 0);
    AheadInside(data, |done|, |b|);
    assert s[|done|..|done| + |b|] == b;
    assert BytesBits(data)[|done|..|done| + |b|] == s[|done|..|done| + |b|];
    ItemInverts(data, |done|, items[i]);
  }

  method ReadDisp(data: seq<byte>, shapes: seq<Item>, ghost items: seq<Item>) returns (out: seq<Item>)
    requires AllOk(items) && shapes == Shapes(items)
    requires var s := ScriptBits(items, 0); BytesBits(data) == s + Zeros(PadTo8(|s|))
    ensures out == items
  {
    hide ScriptBits, ItemBits, ItemAt, BytesBits, Zeros, PadTo8, Item.Ok, Item.Shape, ByteAt, Remains;
    var f := new File(data);
    var inp := new Input(f);
    ghost var done := [];
    out := [];
    NothingBefore(items);
    while |out| < |shapes|
      invariant |out| <= |items| && out == items[..|out|]
      invariant inp.Valid() && !inp.readError && inp.Posn() == |done| && fresh(inp) && fresh(inp.inbuffer)
      invariant inp.file == f && f.data == data && fresh(f)
      invariant done + ScriptBits(items[|out|..], |done|) == ScriptBits(items, 0)
      decreases |shapes| - |out|
    {
      WrittenAhead(data, items, |out|, done);
      var item := ReadItemDisp(inp, shapes[|out|]);
      done := done + ItemBits(items[|out|], |done|);
      out := out + [item];
    }
  }

  lemma NothingBefore(items: seq<Item>)
    requires AllOk(items)
    ensures [] + ScriptBits(items[0..], 0) == ScriptBits(items, 0)
  {
    assert items[0..] == items;
  }

  method ReadTdf(data: seq<byte>, shapes: seq<Item>, ghost items: seq<Item>) returns (out: seq<Item>)
    requires AllOk(items) && shapes == Shapes(items)
    requires forall i :: 0 <= i < |items| ==> !items[i].Extn?
    requires var s := ScriptBits(items, 0); BytesBits(data) == s + Zeros(PadTo8(|s|))
    ensures out == items
  {
    hide ScriptBits, ItemBits, ItemAt, BytesBits, Zeros, PadTo8, Item.Ok, ByteAt,
         Linked, Memory, Objs, ChainBits, Bitstream.Content;
    var f := new File(data);
    var lib := new Library();
    var bs := lib.StartBitstream(f);
    ghost var done := [];
    out := [];
    NothingBefore(items);
    while |out| < |shapes|
      invariant |out| <= |items| && out == items[..|out|]
      invariant Reading(bs) && Posn(bs) == |done| && fresh(bs) && fresh(bs.text)
      invariant bs.file == f && f.data == data && fresh(f)
      invariant done + ScriptBits(items[|out|..], |done|) == ScriptBits(items, 0)
      decreases |shapes| - |out|
    {
      WrittenAhead(data, items, |out|, done);
      var item := ReadItemTdf(bs, shapes[|out|]);
      done := done + ItemBits(items[|out|], |done|);
      out := out + [item];
    }
  }
}
