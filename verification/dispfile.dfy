// The disp bit reader: disp/src/file.c.
module DispFile {
  import opened Bits
  import opened Files
  import opened Views

  const BUFFSIZE: nat := 1024
  const CHAR_BIT: nat := 8
  const LO_MASK: nat := 0xff
  const HI_MASK: nat := 0xff00

  // A recorded position in the input file.
  datatype Place = Place(byte: nat, bit: nat)

  function PlacePosn(p: Place): nat { p.byte * CHAR_BIT + p.bit }

  // A byte from which the first k bits have been shifted out.
  function Remains(c: byte, k: nat): nat { And(Shl(c, k), LO_MASK) }

  // The input file, its buffer and the current position.
  class Input {
    const file: File
    const inbuffer: array<byte>
    var ibPtr: nat
    var ibSize: nat
    var here: Place
    var worksp: nat
    var readError: bool

    constructor (f: File)
      requires f.pos == 0
      ensures Valid() && fresh(inbuffer) && file == f && Posn() == 0 && !readError
    {
      file := f;
      inbuffer := new byte[BUFFSIZE];
      ibPtr, ibSize, here, worksp, readError := 0, 0, Place(0, 0), 0, false;
    }

    // The bytes a reader still sees: after a reading error, none.
    ghost function Seen(): seq<byte>
      reads this, file
    {
      if readError then [] else file.data
    }

    function Posn(): nat
      reads this
    {
      PlacePosn(here)
    }

    // The buffer holds the bytes from byte k of the file up to the file position.
    ghost predicate Buffered(k: nat)
      reads this, inbuffer, file
    {
      && inbuffer.Length == BUFFSIZE
      && ibPtr + ibSize <= BUFFSIZE
      && (!readError ==>
            && file.pos == k + ibSize
            && (ibSize > 0 ==> file.pos <= |file.data|)
            && (forall i :: ibPtr <= i < ibPtr + ibSize ==> inbuffer[i] == ByteAt(file.data, k + i - ibPtr)))
    }

    ghost predicate Valid()
      reads this, inbuffer, file
    {
      && here.bit < CHAR_BIT
      && Buffered(here.byte + if here.bit > 0 then 1 else 0)
      && (here.bit > 0 ==> worksp == Remains(ByteAt(Seen(), here.byte), here.bit))
      && (here.bit > 0 && !readError ==> here.byte < |file.data|)
    }

    // Read the next byte of the file into worksp.
    method NextByte()
      requires Buffered(here.byte)
      modifies this`worksp, this`ibPtr, this`ibSize, this`readError, inbuffer, file`pos
      ensures Buffered(here.byte + 1)
      ensures worksp == ByteAt(old(Seen()), here.byte) == ByteAt(Seen(), here.byte)
      ensures readError == (old(readError) || here.byte >= |file.data|)
    {
      if readError {
        worksp := 0xff;
      } else {
        // An empty buffer is filled from where the file stands.
        if ibSize == 0 {
          var got := file.Read(BUFFSIZE);
          ibPtr := 0;
          ibSize := |got|;
          forall i | 0 <= i < |got| {
            inbuffer[i] := got[i];
          }
          if ibSize == 0 {
            readError := true;
          }
        }
        // The buffer's first byte is the one at this place.
        if readError {
          worksp := 0xff;
        } else {
          worksp := inbuffer[ibPtr];
          ibPtr := ibPtr + 1;
          ibSize := ibSize - 1;
        }
      }
    }

    // Read the next byte if none of the current one is left.
    method LoadByte()
      requires Valid()
      modifies this`worksp, this`ibPtr, this`ibSize, this`readError, inbuffer, file`pos
      ensures Buffered(here.byte + 1)
      ensures var c := ByteAt(old(Seen()), here.byte);
              c == ByteAt(Seen(), here.byte) && worksp == Remains(c, here.bit)
      ensures readError == (old(readError) || here.byte >= |file.data|)
    {
      hide Remains, ByteAt;
      if here.bit == 0 {
        NothingShifted(ByteAt(Seen(), here.byte));
        NextByte();
      }
    }

    // Take m bits of the current byte.
    method TakeBits(m: nat) returns (v: nat)
      requires Valid() && 0 < m <= CHAR_BIT - here.bit
      modifies this`here, this`worksp, this`ibPtr, this`ibSize, this`readError, inbuffer, file`pos
      ensures Valid() && Posn() == old(Posn()) + m
      ensures v == NumAt(old(Seen()), old(Posn()), m)
      ensures readError == (old(readError) || old(Posn()) + m > 8 * |file.data|)
    {
      hide Shl, Shr, And, ByteAt, NumAt, Remains, ValueOf, BitsOf;
      ghost var seen, c := Seen(), ByteAt(Seen(), here.byte);
      LoadByte();
      ShiftRegister(c, here.bit, m);
      SliceOfByte(seen, here.byte, here.bit, m);
      worksp := Shl(worksp, m);
      v := Shr(And(worksp, HI_MASK), CHAR_BIT);
      worksp := And(worksp, LO_MASK);
      here := here.(bit := here.bit + m);
      if here.bit == CHAR_BIT {
        here := Place(here.byte + 1, 0);
      }
    }

    // Fetch the next n bits.
    method Fetch(n: nat) returns (a: nat)
      requires Valid()
      modifies this`here, this`worksp, this`ibPtr, this`ibSize, this`readError, inbuffer, file`pos
      ensures Valid() && Posn() == old(Posn()) + n
      ensures a == NumAt(old(Seen()), old(Posn()), n)
      ensures readError == (old(readError) || (n > 0 && old(Posn()) + n > 8 * |file.data|))
    {
      hide Shl, Shr, And, ByteAt, NumAt;
      ghost var seen, start, done := Seen(), Posn(), 0;
      a := 0;
      var left: nat := n;
      NothingTaken(seen, start);
      while left > 0
        invariant Valid() && left + done == n && Posn() == start + done
        invariant a == NumAt(seen, start, done)
        invariant readError == (old(readError) || (done > 0 && start + done > 8 * |file.data|))
      {
        // All that is left of this byte, or as much as is still asked for.
        var m := CHAR_BIT - here.bit;
        if left < m { m := left; }
        ghost var before := Seen();
        var v := TakeBits(m);
        SeenAlike(seen, before, start + done, m);
        AppendBits(seen, start, done, m);
        a := Shl(a, m) + v;
        left := left - m;
        done := done + m;
      }
    }

    ghost function Cur(): Cursor
      reads this
    {
      Cursor(Posn(), readError)
    }

    // Read one bit inside a byte.
    method AlignOne()
      requires Valid() && here.bit > 0
      modifies this`here, this`worksp, this`ibPtr, this`ibSize, this`readError, inbuffer, file`pos
      ensures Valid() && readError == old(readError)
      ensures Posn() == old(Posn()) + 1 && PadTo8(old(Posn())) == PadTo8(Posn()) + 1
    {
      hide PadTo8, NumAt, Remains, ByteAt, Input.Seen;
      ghost var was := here;
      PadAt(here.byte, here.bit);
      var _ := Fetch(1);
      PadAt(here.byte, here.bit);
      if was.bit == CHAR_BIT - 1 { NextPlace(was, here); } else { SamePlace(was, here); }
    }

    // Read single bits up to a byte boundary.
    method ByteAlign()
      requires Valid()
      modifies this`here, this`worksp, this`ibPtr, this`ibSize, this`readError, inbuffer, file`pos
      ensures Valid() && Cur() == Cursor(old(Posn()) + PadTo8(old(Posn())), old(readError))
    {
      hide PadTo8, NumAt, Remains, ByteAt, Input.Buffered, Input.Seen;
      ghost var start := Posn();
      while !(here.bit == 0 || here.bit == CHAR_BIT)
        invariant Valid() && readError == old(readError)
        invariant Posn() + PadTo8(Posn()) == start + PadTo8(start)
        decreases PadTo8(Posn())
      {
        AlignOne();
      }
      PadAt(here.byte, 0);
    }

    // Go to the position p.
    method SetPlace(p: Place)
      requires Valid()
      modifies this`here, this`worksp, this`ibPtr, this`ibSize, this`readError, inbuffer, file`pos
      ensures Valid() && Cur() == AfterPlace(file.data, old(readError), p)
    {
      here := Place(p.byte, 0);
      file.Seek(here.byte);
      ibSize := 0;
      var _ := Fetch(p.bit);
    }

    // Skip the next n bits: read them if they are few, otherwise go past them.
    method SkipBits(n: nat)
      requires Valid()
      modifies this`here, this`worksp, this`ibPtr, this`ibSize, this`readError, inbuffer, file`pos
      ensures Valid() && Cur() == AfterSkip(file.data, old(Cur()), n)
    {
      if readError { return; }
      if n <= 4 * CHAR_BIT {
        var _ := Fetch(n);
      } else {
        var b := Posn() + n;
        SetPlace(Place(b / CHAR_BIT, b % CHAR_BIT));
      }
    }
  }

  lemma NextPlace(p: Place, q: Place)
    requires PlacePosn(q) == PlacePosn(p) + 1 && p.bit == CHAR_BIT - 1 && q.bit < CHAR_BIT
    ensures q == Place(p.byte + 1, 0)
  {
  }

  lemma SamePlace(p: Place, q: Place)
    requires PlacePosn(q) == PlacePosn(p) + 1 && p.bit < CHAR_BIT - 1 && q.bit < CHAR_BIT
    ensures q == Place(p.byte, p.bit + 1)
  {
  }

  // A position and whether the end of the file has been read past.
  datatype Cursor = Cursor(pos: nat, failed: bool)

  function AfterFetch(data: seq<byte>, c: Cursor, n: nat): Cursor {
    Cursor(c.pos + n, c.failed || (n > 0 && c.pos + n > 8 * |data|))
  }

  function AfterPlace(data: seq<byte>, failed: bool, p: Place): Cursor {
    AfterFetch(data, Cursor(p.byte * CHAR_BIT, failed), p.bit)
  }

  function AfterSkip(data: seq<byte>, c: Cursor, n: nat): Cursor {
    if c.failed then c
    else if n <= 4 * CHAR_BIT then AfterFetch(data, c, n)
    else AfterPlace(data, false, Place((c.pos + n) / CHAR_BIT, (c.pos + n) % CHAR_BIT))
  }

  // Skipping leaves the reader as fetching and discarding does, exactly unless a
  // reading error came before (then skip_bits stays put) or a long skip to a byte
  // boundary goes past the end (then nothing is read and no error is noticed).
  lemma SkipIsDiscard(data: seq<byte>, c: Cursor, n: nat)
    ensures AfterSkip(data, c, n) == AfterFetch(data, c, n)
            <==> if c.failed then n == 0
                 else !(n > 4 * CHAR_BIT && (c.pos + n) % CHAR_BIT == 0 && c.pos + n > 8 * |data|)
  {
    var b := c.pos + n;
    assert b / CHAR_BIT * CHAR_BIT + b % CHAR_BIT == b;
  }

  // Skipping inside the file goes where it is meant to.
  lemma SkipInside(data: seq<byte>, p: nat, n: nat)
    ensures p + n <= 8 * |data| ==> AfterSkip(data, Cursor(p, false), n) == Cursor(p + n, false)
  {
  }

  // Where they differ inside a run without errors, it is in the flag alone.
  lemma SkipUnnoticed(data: seq<byte>, c: Cursor, n: nat)
    requires !c.failed && AfterSkip(data, c, n) != AfterFetch(data, c, n)
    ensures AfterSkip(data, c, n) == Cursor(c.pos + n, false) && AfterFetch(data, c, n) == Cursor(c.pos + n, true)
  {
    var b := c.pos + n;
    assert b / CHAR_BIT * CHAR_BIT + b % CHAR_BIT == b;
  }

  // Going to a place leaves the reader there without an error, exactly unless
  // an error came before, which outlives the seek, or the place is inside a byte
  // behind the end of the file.
  lemma SetPlaceRecovers(data: seq<byte>, failed: bool, p: Place)
    ensures AfterPlace(data, failed, p) == Cursor(PlacePosn(p), false)
            <==> !failed && !(p.bit > 0 && PlacePosn(p) > 8 * |data|)
  {
  }

  lemma NothingShifted(c: byte)
    ensures Remains(c, 0) == c
  {
    assert Mask(8) == LO_MASK && Pow2(8) == 256;
    forall i: nat ensures Bit(Remains(c, 0), i) == Bit(c, i) {
      BitAnd(c, LO_MASK, i);
      BitMask(8, i);
      if i >= 8 { BitBelow(c, 8, i); }
    }
    BitsDetermine(Remains(c, 0), c);
  }

  // Shifting m more bits out leaves them in the high byte of the register.
  lemma ShiftRegister(c: byte, k: nat, m: nat)
    requires k + m <= 8
    ensures var w := Shl(Remains(c, k), m);
            && Shr(And(w, HI_MASK), 8) == ValueOf(BitsOf(8, c)[k..k + m])
            && And(w, LO_MASK) == Remains(c, k + m)
  {
    hide Shl, Shr, And, Bit, Remains, BitsOf, ValueOf;
    var w := Shl(Remains(c, k), m);
    forall i: nat ensures Bit(w, i) == (k + m <= i < 8 + m && Bit(c, i - m - k)) {
      RegisterBit(c, k, m, i);
    }
    HighByte(c, k, m, w);
    LowByte(c, k, m, w);
  }

  lemma RegisterBit(c: byte, k: nat, m: nat, i: nat)
    ensures Bit(Shl(Remains(c, k), m), i) == (k + m <= i < 8 + m && Bit(c, i - m - k))
  {
    hide Shl, And, Bit, Mask;
    BitShl(Remains(c, k), m, i);
    if i >= m { RemainsBit(c, k, i - m); }
  }

  lemma RemainsBit(c: byte, k: nat, i: nat)
    ensures Bit(Remains(c, k), i) == (k <= i < 8 && Bit(c, i - k))
  {
    assert Mask(8) == LO_MASK;
    hide Shl, And, Bit, Mask;
    BitAnd(Shl(c, k), LO_MASK, i);
    BitMask(8, i);
    BitShl(c, k, i);
  }

  lemma HighByte(c: byte, k: nat, m: nat, w: nat)
    requires k + m <= 8 && forall i: nat :: Bit(w, i) == (k + m <= i < 8 + m && Bit(c, i - m - k))
    ensures Shr(And(w, HI_MASK), 8) == ValueOf(BitsOf(8, c)[k..k + m])
  {
    assert Mask(8) == LO_MASK;
    HighMask();
    hide Shl, Shr, And, Bit, Mask, BitsOf, ValueOf;
    var s := BitsOf(8, c)[k..k + m];
    forall i: nat ensures Bit(Shr(And(w, HI_MASK), 8), i) == (i < |s| && s[|s| - 1 - i]) {
      BitShr(And(w, HI_MASK), 8, i);
      BitAnd(w, HI_MASK, i + 8);
      BitShl(LO_MASK, 8, i + 8);
      BitMask(8, i);
      if i < m { BitsOfAt(8, c, k + m - 1 - i); }
    }
    ValueOfFromBits(Shr(And(w, HI_MASK), 8), s);
  }

  lemma LowByte(c: byte, k: nat, m: nat, w: nat)
    requires k + m <= 8 && forall i: nat :: Bit(w, i) == (k + m <= i < 8 + m && Bit(c, i - m - k))
    ensures And(w, LO_MASK) == Remains(c, k + m)
  {
    assert Mask(8) == LO_MASK;
    hide And, Bit, Mask, Remains;
    forall i: nat ensures Bit(And(w, LO_MASK), i) == Bit(Remains(c, k + m), i) {
      BitAnd(w, LO_MASK, i);
      BitMask(8, i);
      RemainsBit(c, k + m, i);
    }
    BitsDetermine(And(w, LO_MASK), Remains(c, k + m));
  }

  lemma HighMask()
    ensures HI_MASK == Shl(LO_MASK, 8)
  {
    ShlEight(LO_MASK);
  }

  lemma ShlEight(x: nat)
    ensures Shl(x, 8) == 256 * x
  {
    ShlFour(x);
    ShlFour(16 * x);
    ShlAdd(x, 4, 4);
  }

  lemma ShlFour(x: nat)
    ensures Shl(x, 4) == 16 * x
  {
    assert Shl(x, 4) == Shl(2 * x, 3) == Shl(4 * x, 2) == Shl(8 * x, 1) == Shl(16 * x, 0);
  }

  lemma {:induction false} ShlAdd(x: nat, i: nat, j: nat)
    ensures Shl(x, i + j) == Shl(Shl(x, i), j)
    decreases i
  {
    if i > 0 { ShlAdd(2 * x, i - 1, j); }
  }

  lemma SliceOfByte(data: seq<byte>, k: nat, b: nat, m: nat)
    requires b + m <= 8
    ensures ValueOf(BitsOf(8, ByteAt(data, k))[b..b + m]) == NumAt(data, 8 * k + b, m)
  {
    hide BitsOf, Ahead, ByteAt;
    AheadByte(data, k);
    AheadSplit(data, 8 * k, b, 8 - b);
    AheadSplit(data, 8 * k + b, m, 8 - b - m);
    assert BitsOf(8, ByteAt(data, k))[b..b + m] == Ahead(data, 8 * k + b, m);
  }

  lemma NothingTaken(data: seq<byte>, p: nat)
    ensures NumAt(data, p, 0) == 0
  {
  }

  lemma AppendBits(data: seq<byte>, p: nat, n: nat, m: nat)
    ensures Shl(NumAt(data, p, n), m) + NumAt(data, p + n, m) == NumAt(data, p, n + m)
  {
    hide Ahead;
    AheadSplit(data, p, n, m);
    AddShift(Ahead(data, p, n), Ahead(data, p + n, m));
  }

  lemma {:induction false} AddShift(s: seq<bool>, t: seq<bool>)
    ensures Shl(ValueOf(s), |t|) + ValueOf(t) == ValueOf(s + t)
    decreases |t|
  {
    if t == [] {
      assert s + t == s;
    } else {
      var t' := t[..|t| - 1];
      AddShift(s, t');
      assert (s + t)[..|s + t| - 1] == s + t';
      ShlAdd(ValueOf(s), |t'|, 1);
    }
  }

  // Once reading has failed beyond the end, the bits seen are still the same.
  lemma SeenAlike(data: seq<byte>, seen: seq<byte>, p: nat, n: nat)
    requires seen == data || (seen == [] && p >= 8 * |data|)
    ensures NumAt(data, p, n) == NumAt(seen, p, n)
  {
    if seen != data {
      forall i: nat | p <= i ensures BitAt(data, i) == BitAt(seen, i) {
        OnesBeyond(data, i);
        OnesBeyond(seen, i);
      }
      SameAhead(data, seen, p, n);
    }
  }
}
